/**
 The chain reader and the full-image check. `Verify` accepts an image exactly when some
 node map makes it well formed, and the bytes then determine that map.
 */
module ShizukuVerify {
  import opened Options
  import opened ByteStrings
  import opened ShizukuFormat
  import opened ShizukuDirectory
  import opened ShizukuBitmap
  import opened ShizukuTree
  import opened ShizukuImage

  // ---- Reading one chain ----

  /** What the reader knows after `k` blocks: the part read so far, block by block. */
  ghost predicate ReadSoFar(disk: Disk, super: Super, bitmap: seq<Byte>, inode: Inode,
                            blocks: seq<nat>, content: seq<Byte>, current: nat) {
    && |blocks| <= BlocksFor(inode.size)
    && |content| == (if DATA_PAYLOAD_SIZE * |blocks| < inode.size then DATA_PAYLOAD_SIZE * |blocks| else inode.size)
    && BlocksOk(super, bitmap, blocks)
    && (blocks == [] ==> current == inode.firstBlock)
    && forall i :: 0 <= i < |blocks| ==> PieceOn(disk, inode.number, blocks, content, current, i)
  }

  ghost predicate PieceOn(disk: Disk, owner: nat, blocks: seq<nat>, content: seq<Byte>, current: nat, i: nat)
    requires i < |blocks|
  {
    && DATA_PAYLOAD_SIZE * i <= |content|
    && blocks[i] < |disk|
    && disk[blocks[i]] == DataBlock(owner, if i + 1 < |blocks| then blocks[i + 1] else current,
                                    content[DATA_PAYLOAD_SIZE * i..ChunkEnd(content, i)])
  }

  /** Any chain the inode could describe starts with what has been read. */
  ghost predicate Forced(disk: Disk, super: Super, bitmap: seq<Byte>, inode: Inode,
                         blocks: seq<nat>, content: seq<Byte>, current: nat) {
    forall bs, c :: Chained(disk, super, bitmap, inode, bs, c) ==>
      blocks <= bs && content <= c && current == if |blocks| < |bs| then bs[|blocks|] else 0
  }

  ghost predicate Readable(disk: Disk, super: Super, bitmap: seq<Byte>, inode: Inode) {
    exists bs, c :: Chained(disk, super, bitmap, inode, bs, c)
  }

  lemma ForcedStep(disk: Disk, super: Super, bitmap: seq<Byte>, inode: Inode,
                   blocks: seq<nat>, content: seq<Byte>, current: nat, bs: seq<nat>, c: seq<Byte>)
    requires Small(super) && inode.number < INODE_COUNT
    requires Chained(disk, super, bitmap, inode, bs, c)
    requires Forced(disk, super, bitmap, inode, blocks, content, current) && |blocks| < |bs|
    requires |content| == DATA_PAYLOAD_SIZE * |blocks|
    ensures Allocated(super, bitmap, current) && current !in blocks && current < |disk|
    ensures var take := |Chunk(c, |blocks|)|;
      && take == (if inode.size - |content| < DATA_PAYLOAD_SIZE then inode.size - |content| else DATA_PAYLOAD_SIZE)
      && DataAccepted(disk[current], inode.number, take)
      && blocks + [current] <= bs && content + disk[current][16..16 + take] <= c
      && DataHeader(disk[current])[2] == NextOf(bs, |blocks|)
  {
    hide DataBlock, DataAccepted, DataHeader;
    var k := |blocks|;
    assert bs[k] == current && LinkOn(disk, inode.number, bs, c, k);
    PowValues();
    NextIsSmall(super, bitmap, bs, k);
    DataRoundTrip(inode.number, NextOf(bs, k), Chunk(c, k));
    assert Allocated(super, bitmap, bs[k]);
    assert bs[..k + 1] == blocks + [current];
    assert c[..ChunkEnd(c, k)] == content + Chunk(c, k);
  }

  lemma ReadStep(disk: Disk, super: Super, bitmap: seq<Byte>, inode: Inode,
                 blocks: seq<nat>, content: seq<Byte>, current: nat, take: nat)
    requires ReadSoFar(disk, super, bitmap, inode, blocks, content, current)
    requires |blocks| < BlocksFor(inode.size) && |content| == DATA_PAYLOAD_SIZE * |blocks|
    requires take == (if inode.size - |content| < DATA_PAYLOAD_SIZE then inode.size - |content| else DATA_PAYLOAD_SIZE)
    requires Allocated(super, bitmap, current) && current !in blocks && current < |disk|
    requires DataAccepted(disk[current], inode.number, take)
    ensures ReadSoFar(disk, super, bitmap, inode, blocks + [current],
                      content + disk[current][16..16 + take], DataHeader(disk[current])[2])
  {
    hide DataBlock, DataAccepted, DataHeader, Allocated;
    var bs, c, next := blocks + [current], content + disk[current][16..16 + take], DataHeader(disk[current])[2];
    DataAcceptsOnlyWritten(disk[current], inode.number, take);
    forall i | 0 <= i < |bs| ensures PieceOn(disk, inode.number, bs, c, next, i) {
      if i < |blocks| {
        assert PieceOn(disk, inode.number, blocks, content, current, i);
        assert content[DATA_PAYLOAD_SIZE * i..ChunkEnd(content, i)] == c[DATA_PAYLOAD_SIZE * i..ChunkEnd(c, i)];
      } else {
        assert c[DATA_PAYLOAD_SIZE * i..ChunkEnd(c, i)] == disk[current][16..16 + take];
      }
    }
  }

  lemma ReadAll(disk: Disk, super: Super, bitmap: seq<Byte>, inode: Inode, blocks: seq<nat>, content: seq<Byte>)
    requires ReadSoFar(disk, super, bitmap, inode, blocks, content, 0)
    requires |blocks| == BlocksFor(inode.size) == inode.blockCount <= MAX_CHAIN_BLOCKS
    requires First(blocks) == inode.firstBlock && Crc(content) == inode.contentCrc
    ensures Chained(disk, super, bitmap, inode, blocks, content)
  {
    hide DataBlock, Crc, Allocated;
    forall i | 0 <= i < |blocks| ensures LinkOn(disk, inode.number, blocks, content, i) {
      assert PieceOn(disk, inode.number, blocks, content, 0, i);
    }
  }

  lemma NotChained(disk: Disk, super: Super, bitmap: seq<Byte>, inode: Inode,
                   blocks: seq<nat>, content: seq<Byte>, current: nat)
    requires Small(super) && inode.number < INODE_COUNT
    requires Forced(disk, super, bitmap, inode, blocks, content, current)
    requires |content| == DATA_PAYLOAD_SIZE * |blocks| && |blocks| < BlocksFor(inode.size) == inode.blockCount
    requires var take := if inode.size - |content| < DATA_PAYLOAD_SIZE then inode.size - |content| else DATA_PAYLOAD_SIZE;
      !Allocated(super, bitmap, current) || current in blocks || current >= |disk|
      || !DataAccepted(disk[current], inode.number, take)
    ensures !Readable(disk, super, bitmap, inode)
  {
    hide DataAccepted, Allocated;
    forall bs, c | Chained(disk, super, bitmap, inode, bs, c) ensures false {
      ForcedStep(disk, super, bitmap, inode, blocks, content, current, bs, c);
    }
  }

  lemma ForcedNext(disk: Disk, super: Super, bitmap: seq<Byte>, inode: Inode,
                   blocks: seq<nat>, content: seq<Byte>, current: nat, take: nat)
    requires Small(super) && inode.number < INODE_COUNT && current < |disk|
    requires Forced(disk, super, bitmap, inode, blocks, content, current)
    requires |content| == DATA_PAYLOAD_SIZE * |blocks| && |blocks| < BlocksFor(inode.size) == inode.blockCount
    requires take == if inode.size - |content| < DATA_PAYLOAD_SIZE then inode.size - |content| else DATA_PAYLOAD_SIZE
    ensures Forced(disk, super, bitmap, inode, blocks + [current],
                   content + disk[current][16..16 + take], DataHeader(disk[current])[2])
  {
    hide DataAccepted, Allocated, DataHeader;
    forall bs, c | Chained(disk, super, bitmap, inode, bs, c)
      ensures blocks + [current] <= bs && content + disk[current][16..16 + take] <= c
      ensures DataHeader(disk[current])[2] == if |blocks| + 1 < |bs| then bs[|blocks| + 1] else 0
    {
      ForcedStep(disk, super, bitmap, inode, blocks, content, current, bs, c);
    }
  }

  /** After the last block nothing is left to choose. */
  lemma ForcedWhole(disk: Disk, super: Super, bitmap: seq<Byte>, inode: Inode,
                    blocks: seq<nat>, content: seq<Byte>, current: nat, bs: seq<nat>, c: seq<Byte>)
    requires Forced(disk, super, bitmap, inode, blocks, content, current)
    requires |blocks| == inode.blockCount && |content| == inode.size
    ensures Chained(disk, super, bitmap, inode, bs, c) ==> bs == blocks && c == content && current == 0
  {
    hide DataBlock, Allocated;
  }

  /** The loop of the chain reader over an inode with at least one block. */
  method ReadBlocks(disk: Disk, super: Super, bitmap: seq<Byte>, inode: Inode)
    returns (ok: bool, blocks: seq<nat>, content: seq<Byte>)
    requires Small(super) && inode.number < INODE_COUNT && super.total <= |disk|
    requires inode.blockCount == BlocksFor(inode.size) <= MAX_CHAIN_BLOCKS
    ensures ok ==> Chained(disk, super, bitmap, inode, blocks, content)
    ensures !ok ==> !Readable(disk, super, bitmap, inode)
  {
    hide DataAccepted, DataBlock, CrcByte, Fold;
    var current, remaining := inode.firstBlock, inode.size;
    var contentCrc: bv32 := 0;
    ok, blocks, content := false, [], [];
    CrcEmpty();
    assert Crc32([], 0) == 0 by { FlipTwice(0); }
    assert Forced(disk, super, bitmap, inode, blocks, content, current);
    for k := 0 to inode.blockCount
      invariant |blocks| == k && remaining == inode.size - |content|
      invariant contentCrc == Crc32(content, 0)
      invariant First(blocks) == if k == 0 then 0 else inode.firstBlock
      invariant ReadSoFar(disk, super, bitmap, inode, blocks, content, current)
      invariant Forced(disk, super, bitmap, inode, blocks, content, current)
    {
      assert |content| == DATA_PAYLOAD_SIZE * k;
      var take := if remaining < DATA_PAYLOAD_SIZE then remaining else DATA_PAYLOAD_SIZE;
      if !Allocated(super, bitmap, current) || current in blocks
         || !DataAccepted(disk[current], inode.number, take)
      {
        NotChained(disk, super, bitmap, inode, blocks, content, current);
        return false, blocks, content;
      }
      var chunk := disk[current][16..16 + take];
      ReadStep(disk, super, bitmap, inode, blocks, content, current, take);
      ForcedNext(disk, super, bitmap, inode, blocks, content, current, take);
      Crc32Concat(content, chunk, 0);
      contentCrc := Crc32(chunk, contentCrc);
      remaining := remaining - take;
      blocks, content, current := blocks + [current], content + chunk, DataHeader(disk[current])[2];
    }
    if current != 0 || remaining != 0 || contentCrc as int != inode.contentCrc {
      forall bs, c ensures !Chained(disk, super, bitmap, inode, bs, c) {
        ForcedWhole(disk, super, bitmap, inode, blocks, content, current, bs, c);
      }
      return false, blocks, content;
    }
    ReadAll(disk, super, bitmap, inode, blocks, content);
    ok := true;
  }

  /** The content reader: succeeds exactly on inodes whose chain is intact. */
  method ContentChunks(disk: Disk, super: Super, bitmap: seq<Byte>, inode: Inode)
    returns (ok: bool, blocks: seq<nat>, content: seq<Byte>)
    requires Small(super) && inode.number < INODE_COUNT && super.total <= |disk|
    ensures ok ==> Chained(disk, super, bitmap, inode, blocks, content)
    ensures !ok ==> !Readable(disk, super, bitmap, inode)
  {
    if inode.blockCount > MAX_CHAIN_BLOCKS || inode.blockCount != BlocksFor(inode.size) {
      return false, [], [];
    }
    ok, blocks, content := ReadBlocks(disk, super, bitmap, inode);
  }

  // ---- The inode table ----

  ghost predicate TableIs(img: Img, inodes: map<nat, Inode>, from: nat, to: nat)
    requires |img.inodes| == TABLE_SIZE && to <= INODE_COUNT
  {
    && (forall n :: n in inodes ==> from <= n < to)
    && forall n :: from <= n < to ==>
         if n in inodes
         then InodeAt(img.inodes, n) == Used(inodes[n]) && inodes[n].generation <= img.super.generation
         else InodeAt(img.inodes, n) == Free
  }

  lemma SlotOfWellFormed(disk: Disk, img: Img, m: Nodes, n: nat)
    requires WellFormed(disk, img, m) && n < INODE_COUNT
    ensures n in m ==> n > 0 && InodeAt(img.inodes, n) == Used(InodeFor(n, m[n])) && m[n].generation <= img.super.generation
    ensures n !in m ==> InodeAt(img.inodes, n) == Free
  {
    hide SpaceOk, AllReachable, InodeAt;
    assert n in m ==> NodeOk(m, n);
    assert n in m ==> NodeOn(disk, img, n, m[n]);
  }

  ghost predicate Unacceptable(disk: Disk, img: Img) {
    forall m :: !WellFormed(disk, img, m)
  }

  method LoadInodes(disk: Disk, img: Img) returns (ok: bool, inodes: map<nat, Inode>, free: nat)
    requires Layout(disk, img)
    ensures ok ==> InodeAt(img.inodes, 0) == Free && TableIs(img, inodes, 1, INODE_COUNT)
    ensures ok ==> free + |inodes| == INODE_COUNT - 1
    ensures !ok ==> Unacceptable(disk, img)
  {
    hide WellFormed, InodeAt;
    ok, inodes, free := false, map[], 0;
    forall m | WellFormed(disk, img, m) ensures InodeAt(img.inodes, 0) == Free {
      SlotOfWellFormed(disk, img, m, 0);
    }
    if InodeAt(img.inodes, 0) != Free {
      return;
    }
    for n := 1 to INODE_COUNT
      invariant TableIs(img, inodes, 1, n)
      invariant free + |inodes| == n - 1
    {
      forall m | WellFormed(disk, img, m)
        ensures InodeAt(img.inodes, n) == Free
                || (InodeAt(img.inodes, n).Used? && InodeAt(img.inodes, n).inode.generation <= img.super.generation)
      {
        SlotOfWellFormed(disk, img, m, n);
      }
      match InodeAt(img.inodes, n)
      case Free =>
        free := free + 1;
      case Bad =>
        return;
      case Used(inode) =>
        if inode.generation > img.super.generation {
          return;
        }
        inodes := inodes[n := inode];
    }
    ok := true;
  }

  // ---- Nodes ----

  /** The nodes loaded so far, for inode numbers below `to`. */
  ghost predicate LoadedTo(disk: Disk, img: Img, inodes: map<nat, Inode>, ns: Nodes, to: nat)
    requires |img.inodes| == TABLE_SIZE && to <= INODE_COUNT
  {
    && (forall n :: n in ns <==> n in inodes && n < to)
    && (forall n :: n in ns ==> n < INODE_COUNT && NodeOn(disk, img, n, ns[n]) && inodes[n] == InodeFor(n, ns[n]))
  }

  ghost predicate ForcedNodes(disk: Disk, img: Img, ns: Nodes) {
    forall m :: WellFormed(disk, img, m) ==> forall n :: n in ns ==> n in m && m[n] == ns[n]
  }

  predicate ParentOk(inodes: map<nat, Inode>, inode: Inode) {
    && inode.parent in inodes && inodes[inode.parent].kind == KIND_DIRECTORY
    && (inode.kind == KIND_DIRECTORY ==> inode.size >= 8)
  }

  /** Child entries of one directory name inodes that agree on kind and parent. */
  predicate ChildrenOk(inodes: map<nat, Inode>, d: nat, es: seq<Entry>) {
    forall i :: 0 <= i < |es| ==>
      es[i].inode in inodes && inodes[es[i].inode].kind == es[i].kind && inodes[es[i].inode].parent == d
  }

  lemma WellFormedNode(disk: Disk, img: Img, inodes: map<nat, Inode>, m: Nodes, n: nat)
    requires WellFormed(disk, img, m) && TableIs(img, inodes, 1, INODE_COUNT) && n in inodes
    ensures n in m && n < INODE_COUNT && InodeFor(n, m[n]) == inodes[n] && NodeOn(disk, img, n, m[n]) && NodeOk(m, n)
  {
    hide SpaceOk, AllReachable, NodeOn, InodeAt;
    SlotOfWellFormed(disk, img, m, n);
    assert NodeOn(disk, img, n, m[n]);
    assert NodeOk(m, n);
  }

  lemma WellFormedLinks(disk: Disk, img: Img, m: Nodes)
    requires WellFormed(disk, img, m)
    ensures LinksOk(m)
  {
    hide SpaceOk, AllReachable, LinksOk, TableOn, Layout;
  }

  lemma WellFormedParent(disk: Disk, img: Img, inodes: map<nat, Inode>, m: Nodes, n: nat)
    requires WellFormed(disk, img, m) && TableIs(img, inodes, 1, INODE_COUNT) && n in inodes
    ensures ParentOk(inodes, inodes[n])
  {
    hide WellFormed, InodeAt, Decode, LinksOk;
    WellFormedNode(disk, img, inodes, m, n);
    InTable(disk, img, inodes, m, m[n].parent);
    if inodes[n].kind == KIND_DIRECTORY {
      DecodedSize(m[n].content);
    }
  }

  lemma InTable(disk: Disk, img: Img, inodes: map<nat, Inode>, m: Nodes, n: nat)
    requires WellFormed(disk, img, m) && TableIs(img, inodes, 1, INODE_COUNT) && n in m
    ensures n in inodes && inodes[n] == InodeFor(n, m[n])
  {
    hide WellFormed, InodeAt;
    WellFormedLinks(disk, img, m);
    assert NodeOk(m, n);
    SlotOfWellFormed(disk, img, m, n);
  }

  lemma WellFormedChildren(disk: Disk, img: Img, inodes: map<nat, Inode>, m: Nodes, n: nat)
    requires WellFormed(disk, img, m) && TableIs(img, inodes, 1, INODE_COUNT)
    requires n in inodes && inodes[n].kind == KIND_DIRECTORY
    ensures n in m && ChildrenOk(inodes, n, m[n].entries)
  {
    hide WellFormed, InodeAt, NodeOn, TableIs;
    WellFormedNode(disk, img, inodes, m, n);
    WellFormedLinks(disk, img, m);
    assert IsDir(m, n) && DirOk(m, n);
    forall i | 0 <= i < |m[n].entries|
      ensures var e := m[n].entries[i]; e.inode in inodes && inodes[e.inode].kind == e.kind && inodes[e.inode].parent == n
    {
      assert m[n].entries[i] in m[n].entries;
      InTable(disk, img, inodes, m, m[n].entries[i].inode);
    }
  }

  lemma DecodedSize(data: seq<Byte>)
    requires Decode(data).Some?
    ensures |data| >= 8
  {
  }

  /** Loads one inode's chain; fails exactly when no well-formed reading exists. */
  method LoadNode(disk: Disk, img: Img, inodes: map<nat, Inode>, n: nat) returns (ok: bool, nd: Node)
    requires Layout(disk, img) && TableIs(img, inodes, 1, INODE_COUNT) && n in inodes
    ensures ok ==> NodeOn(disk, img, n, nd) && inodes[n] == InodeFor(n, nd) && ValidKind(nd.kind)
    ensures ok ==> ParentOk(inodes, inodes[n]) && (nd.kind == KIND_DIRECTORY ==> ChildrenOk(inodes, n, nd.entries))
    ensures ok ==> forall m :: WellFormed(disk, img, m) ==> n in m && m[n] == nd
    ensures !ok ==> Unacceptable(disk, img)
  {
    hide WellFormed, Decode, InodeFromBytes, TableIs, NodeOn, Readable, ChildrenOk, ParentOk;
    var inode := inodes[n];
    nd := Node(inode.kind, inode.parent, [], [], [], inode.generation);
    forall m | WellFormed(disk, img, m) ensures ParentOk(inodes, inode) {
      WellFormedParent(disk, img, inodes, m, n);
    }
    if !ParentOk(inodes, inode) {
      return false, nd;
    }
    InodeNumber(img, inodes, n);
    var read, blocks, content := ContentChunks(disk, img.super, img.bitmap, inode);
    if !read {
      forall m | WellFormed(disk, img, m) ensures false {
        WellFormedNode(disk, img, inodes, m, n);
        NodeReadable(disk, img, n, m[n]);
      }
      return false, nd;
    }
    nd := Node(inode.kind, inode.parent, content, [], blocks, inode.generation);
    if inode.kind == KIND_DIRECTORY {
      var entries := DecodeDirectory(content);
      forall m: Nodes | WellFormed(disk, img, m)
        ensures n in m && Decode(content) == Some(m[n].entries) && ChildrenOk(inodes, n, m[n].entries)
      {
        WellFormedChildren(disk, img, inodes, m, n);
        SameContent(disk, img, inodes, m, n, blocks, content);
      }
      if entries.None? || !ChildrenOk(inodes, n, entries.value) {
        return false, nd;
      }
      nd := nd.(entries := entries.value);
    }
    NodeOfChain(img, inodes, disk, n, nd);
    forall m | WellFormed(disk, img, m) ensures n in m && m[n] == nd {
      WellFormedNode(disk, img, inodes, m, n);
      NodeUnique(disk, img, n, m[n], nd);
    }
    ok := true;
  }

  lemma InodeNumber(img: Img, inodes: map<nat, Inode>, n: nat)
    requires |img.inodes| == TABLE_SIZE && TableIs(img, inodes, 1, INODE_COUNT) && n in inodes
    ensures inodes[n].number == n < INODE_COUNT && ValidKind(inodes[n].kind)
    ensures InodeAt(img.inodes, n) == Used(inodes[n]) && inodes[n].generation <= img.super.generation
  {
    InodeAcceptsOnlyWritten(Slot(img.inodes, n), n);
  }

  lemma NodeReadable(disk: Disk, img: Img, n: nat, nd: Node)
    requires |img.inodes| == TABLE_SIZE && n < INODE_COUNT && NodeOn(disk, img, n, nd)
    ensures Readable(disk, img.super, img.bitmap, InodeFor(n, nd))
  {
    hide InodeAt, Decode, Chained;
  }

  lemma SameContent(disk: Disk, img: Img, inodes: map<nat, Inode>, m: Nodes, n: nat, blocks: seq<nat>, content: seq<Byte>)
    requires WellFormed(disk, img, m) && TableIs(img, inodes, 1, INODE_COUNT) && n in inodes
    requires Chained(disk, img.super, img.bitmap, inodes[n], blocks, content)
    requires inodes[n].kind == KIND_DIRECTORY
    ensures n in m && Decode(content) == Some(m[n].entries)
  {
    hide SpaceOk, AllReachable, InodeAt, Decode, Chained;
    WellFormedNode(disk, img, inodes, m, n);
    ChainUnique(disk, img.super, img.bitmap, inodes[n], blocks, content, m[n].blocks, m[n].content);
  }

  lemma NodeOfChain(img: Img, inodes: map<nat, Inode>, disk: Disk, n: nat, nd: Node)
    requires |img.inodes| == TABLE_SIZE && TableIs(img, inodes, 1, INODE_COUNT) && n in inodes
    requires Chained(disk, img.super, img.bitmap, inodes[n], nd.blocks, nd.content)
    requires nd.kind == inodes[n].kind && nd.parent == inodes[n].parent && nd.generation == inodes[n].generation
    requires if nd.kind == KIND_DIRECTORY then Decode(nd.content) == Some(nd.entries) else nd.entries == []
    ensures n < INODE_COUNT && NodeOn(disk, img, n, nd) && inodes[n] == InodeFor(n, nd)
  {
    hide InodeFromBytes, Decode;
    InodeNumber(img, inodes, n);
  }

  method LoadNodes(disk: Disk, img: Img, inodes: map<nat, Inode>) returns (ok: bool, ns: Nodes)
    requires Layout(disk, img) && InodeAt(img.inodes, 0) == Free && TableIs(img, inodes, 1, INODE_COUNT)
    ensures ok ==> Loaded(disk, img, inodes, ns)
    ensures !ok ==> Unacceptable(disk, img)
  {
    hide WellFormed, TableIs, NodeOn, ChildrenOk, ParentOk, InodeFor, ValidKind;
    ok, ns := false, map[];
    for n := 0 to INODE_COUNT
      invariant LoadedTo(disk, img, inodes, ns, n)
      invariant ForcedNodes(disk, img, ns)
      invariant ChildrenLoaded(inodes, ns)
    {
      if n in inodes {
        var read, nd := LoadNode(disk, img, inodes, n);
        if !read {
          return;
        }
        ns := ns[n := nd];
      }
    }
    ok := true;
    LoadedAll(img, inodes);
  }

  lemma LoadedAll(img: Img, inodes: map<nat, Inode>)
    requires |img.inodes| == TABLE_SIZE && TableIs(img, inodes, 1, INODE_COUNT)
    ensures forall n :: n in inodes ==> n < INODE_COUNT
  {
  }

  ghost predicate ChildrenLoaded(inodes: map<nat, Inode>, ns: Nodes) {
    forall n :: n in ns ==>
      && n in inodes && ValidKind(ns[n].kind) && ParentOk(inodes, inodes[n])
      && (ns[n].kind == KIND_DIRECTORY ==> ChildrenOk(inodes, n, ns[n].entries))
  }

  ghost predicate Loaded(disk: Disk, img: Img, inodes: map<nat, Inode>, ns: Nodes)
    requires |img.inodes| == TABLE_SIZE
  {
    && LoadedTo(disk, img, inodes, ns, INODE_COUNT) && ForcedNodes(disk, img, ns) && ChildrenLoaded(inodes, ns)
    && ns.Keys == inodes.Keys
  }

  lemma LoadedIsOnly(disk: Disk, img: Img, inodes: map<nat, Inode>, ns: Nodes, m: Nodes)
    requires |img.inodes| == TABLE_SIZE && TableIs(img, inodes, 1, INODE_COUNT)
    requires Loaded(disk, img, inodes, ns) && WellFormed(disk, img, m)
    ensures m == ns
  {
    hide WellFormed, NodeOn, TableIs, ChildrenLoaded, LoadedTo;
    forall n | n in m ensures n in ns {
      InTable(disk, img, inodes, m, n);
    }
    assert m.Keys == ns.Keys;
  }

  lemma LoadedTable(disk: Disk, img: Img, inodes: map<nat, Inode>, ns: Nodes)
    requires |img.inodes| == TABLE_SIZE && InodeAt(img.inodes, 0) == Free && TableIs(img, inodes, 1, INODE_COUNT)
    requires Loaded(disk, img, inodes, ns)
    ensures TableOn(disk, img, ns)
    ensures forall n :: n in ns ==> 1 <= n < INODE_COUNT
  {
    hide NodeOn, InodeAt, ChildrenLoaded, ForcedNodes;
    forall n | 0 <= n < INODE_COUNT
      ensures if n in ns then NodeOn(disk, img, n, ns[n]) else InodeAt(img.inodes, n) == Free
    {
    }
  }

  lemma LoadedLinks(disk: Disk, img: Img, inodes: map<nat, Inode>, ns: Nodes)
    requires |img.inodes| == TABLE_SIZE && TableIs(img, inodes, 1, INODE_COUNT) && Loaded(disk, img, inodes, ns)
    ensures NodesOk(ns) && forall d :: IsDir(ns, d) ==> ChildLinks(ns, d)
  {
    hide Loaded, TableIs, StrictlySorted, NodeOk;
    forall n | n in ns ensures NodeOk(ns, n) {
      LoadedNode(disk, img, inodes, ns, n);
    }
    forall d | IsDir(ns, d) ensures ChildLinks(ns, d) {
      LoadedNode(disk, img, inodes, ns, d);
      LoadedEntries(disk, img, d, ns[d]);
      LoadedChildren(disk, img, inodes, ns, d);
    }
  }

  lemma LoadedNode(disk: Disk, img: Img, inodes: map<nat, Inode>, ns: Nodes, n: nat)
    requires |img.inodes| == TABLE_SIZE && TableIs(img, inodes, 1, INODE_COUNT) && Loaded(disk, img, inodes, ns)
    requires n in ns
    ensures n < INODE_COUNT && NodeOk(ns, n) && NodeOn(disk, img, n, ns[n])
  {
    hide NodeOn, InodeAt, ForcedNodes, ChildrenOk;
    var p := inodes[n].parent;
    assert ParentOk(inodes, inodes[n]);
    assert p in ns && ns[p].kind == inodes[p].kind;
  }

  lemma LoadedChildren(disk: Disk, img: Img, inodes: map<nat, Inode>, ns: Nodes, d: nat)
    requires |img.inodes| == TABLE_SIZE && Loaded(disk, img, inodes, ns) && IsDir(ns, d)
    ensures forall e :: e in ns[d].entries ==> e.inode in ns && ns[e.inode].kind == e.kind && ns[e.inode].parent == d
  {
    hide NodeOn, ForcedNodes, ParentOk;
    forall e | e in ns[d].entries
      ensures e.inode in ns && ns[e.inode].kind == e.kind && ns[e.inode].parent == d
    {
      var i :| 0 <= i < |ns[d].entries| && ns[d].entries[i] == e;
      assert e.inode in inodes;
    }
  }

  lemma LoadedEntries(disk: Disk, img: Img, d: nat, nd: Node)
    requires |img.inodes| == TABLE_SIZE && d < INODE_COUNT && NodeOn(disk, img, d, nd) && nd.kind == KIND_DIRECTORY
    ensures StrictlySorted(nd.entries)
  {
    hide InodeAt, Chained, Decode, StrictlySorted;
    EncodeOfDecode(nd.content);
  }

  // ---- References ----

  ghost predicate ChildLinks(ns: Nodes, d: nat)
    requires d in ns
  {
    && StrictlySorted(ns[d].entries)
    && forall e :: e in ns[d].entries ==> e.inode in ns && ns[e.inode].kind == e.kind && ns[e.inode].parent == d
  }

  function CountInode(es: seq<Entry>, n: nat): nat {
    if es == [] then 0
    else CountInode(es[..|es| - 1], n) + (if es[|es| - 1].inode == n then 1 else 0)
  }

  lemma {:induction false} CountPositive(es: seq<Entry>, n: nat)
    ensures CountInode(es, n) > 0 <==> exists i :: 0 <= i < |es| && es[i].inode == n
  {
    if es != [] {
      var k := |es| - 1;
      CountPositive(es[..k], n);
      if CountInode(es[..k], n) > 0 {
        var i :| 0 <= i < k && es[..k][i].inode == n;
        assert es[i].inode == n;
      }
      forall i | 0 <= i < |es| && es[i].inode == n ensures CountInode(es, n) > 0 {
        if i < k {
          assert es[..k][i].inode == n;
        }
      }
    }
  }

  lemma {:induction false} CountAtMostOne(es: seq<Entry>, n: nat)
    ensures CountInode(es, n) <= 1 <==>
            forall i, j :: 0 <= i < |es| && 0 <= j < |es| && es[i].inode == n && es[j].inode == n ==> i == j
  {
    if es != [] {
      var k := |es| - 1;
      CountAtMostOne(es[..k], n);
      CountPositive(es[..k], n);
      assert forall i :: 0 <= i < k ==> es[..k][i] == es[i];
      if CountInode(es, n) <= 1 {
        forall i, j | 0 <= i < |es| && 0 <= j < |es| && es[i].inode == n && es[j].inode == n ensures i == j {
          assert i < k ==> es[..k][i] == es[i];
          assert j < k ==> es[..k][j] == es[j];
        }
      } else if CountInode(es[..k], n) <= 1 {
        var i :| 0 <= i < k && es[..k][i].inode == n;
        assert es[i].inode == n && es[k].inode == n;
      } else {
        var i, j :| 0 <= i < k && 0 <= j < k && es[..k][i].inode == n && es[..k][j].inode == n && i != j;
        assert es[i].inode == n && es[j].inode == n;
      }
    }
  }

  /** Reference counts of an image: none for the root, exactly one for every other inode. */
  ghost predicate RefsOk(ns: Nodes) {
    forall n {:trigger NodeOk(ns, n)} :: n in ns && ns[n].parent in ns ==>
      CountInode(ns[ns[n].parent].entries, n) == if n == ROOT_INODE then 0 else 1
  }

  ghost predicate RefsAre(ns: Nodes, refs: map<nat, nat>, to: nat) {
    && refs.Keys == ns.Keys
    && forall n :: n in ns && ns[n].parent in ns ==>
         refs[n] == if ns[n].parent < to then CountInode(ns[ns[n].parent].entries, n) else 0
  }

  method CountEntries(ns: Nodes, d: nat, before: map<nat, nat>) returns (refs: map<nat, nat>)
    requires IsDir(ns, d) && ChildLinks(ns, d) && RefsAre(ns, before, d)
    ensures RefsAre(ns, refs, d + 1)
  {
    hide StrictlySorted;
    refs := before;
    var es := ns[d].entries;
    for k := 0 to |es|
      invariant refs.Keys == ns.Keys
      invariant forall n :: n in ns && ns[n].parent in ns ==>
        refs[n] == if ns[n].parent < d then CountInode(ns[ns[n].parent].entries, n)
                   else if ns[n].parent == d then CountInode(es[..k], n) else 0
    {
      assert es[k] in es;
      assert es[..k + 1][..k] == es[..k];
      refs := refs[es[k].inode := refs[es[k].inode] + 1];
    }
    assert es[..|es|] == es;
  }

  method CheckReferences(ns: Nodes) returns (ok: bool)
    requires NodesOk(ns) && (forall d :: IsDir(ns, d) ==> ChildLinks(ns, d))
    requires forall n :: n in ns ==> 1 <= n < INODE_COUNT
    ensures ok <==> RefsOk(ns)
  {
    hide ChildLinks, CountInode;
    var refs: map<nat, nat> := map n | n in ns :: 0;
    for d := 0 to INODE_COUNT
      invariant RefsAre(ns, refs, d)
    {
      if d in ns && ns[d].kind == KIND_DIRECTORY {
        assert IsDir(ns, d);
        refs := CountEntries(ns, d, refs);
      } else {
        forall n | n in ns ensures ns[n].parent != d {
          assert NodeOk(ns, n);
        }
      }
    }
    ok := forall n | n in ns :: refs[n] == if n == ROOT_INODE then 0 else 1;
    if ok {
      forall n | n in ns && ns[n].parent in ns
        ensures CountInode(ns[ns[n].parent].entries, n) == if n == ROOT_INODE then 0 else 1
      {
        assert NodeOk(ns, n);
      }
    } else {
      var n :| n in ns && refs[n] != if n == ROOT_INODE then 0 else 1;
      assert NodeOk(ns, n);
    }
  }

  lemma LinksOfRefs(ns: Nodes)
    requires NodesOk(ns) && RootOk(ns) && (forall d :: IsDir(ns, d) ==> ChildLinks(ns, d)) && RefsOk(ns)
    ensures LinksOk(ns)
  {
    forall d | IsDir(ns, d) ensures DirOk(ns, d) {
      assert ChildLinks(ns, d);
      forall e | e in ns[d].entries ensures e.inode != ROOT_INODE {
        if e.inode == ROOT_INODE {
          assert NodeOk(ns, ROOT_INODE);
          CountPositive(ns[d].entries, ROOT_INODE);
        }
      }
      forall e, f | e in ns[d].entries && f in ns[d].entries && e.inode == f.inode ensures e == f {
        assert NodeOk(ns, e.inode);
        CountAtMostOne(ns[d].entries, e.inode);
      }
    }
  }

  lemma RefsOfTree(ns: Nodes)
    requires TreeOk(ns)
    ensures RefsOk(ns)
  {
    hide StrictlySorted, Resolve;
    forall n | n in ns && ns[n].parent in ns
      ensures CountInode(ns[ns[n].parent].entries, n) == if n == ROOT_INODE then 0 else 1
    {
      assert NodeOk(ns, n);
      var d := ns[n].parent;
      assert DirOk(ns, d);
      CountPositive(ns[d].entries, n);
      if n == ROOT_INODE {
        forall i | 0 <= i < |ns[d].entries| ensures ns[d].entries[i].inode != n {
          assert ns[d].entries[i] in ns[d].entries;
        }
      } else {
        ReachedEntry(ns, n);
        OneEntry(ns, d, n);
      }
    }
  }

  lemma ReachedEntry(ns: Nodes, n: nat)
    requires TreeOk(ns) && n in ns && n != ROOT_INODE
    ensures ns[n].parent in ns && exists i :: 0 <= i < |ns[ns[n].parent].entries| && ns[ns[n].parent].entries[i].inode == n
  {
    assert Reachable(ns, n);
    var p :| Resolve(ns, p) == Some(n);
    var d, e := LastStep(ns, p);
    var i :| 0 <= i < |ns[d].entries| && ns[d].entries[i] == e;
  }

  lemma OneEntry(ns: Nodes, d: nat, n: nat)
    requires LinksOk(ns) && IsDir(ns, d)
    ensures CountInode(ns[d].entries, n) <= 1
  {
    var es := ns[d].entries;
    CountAtMostOne(es, n);
    assert DirOk(ns, d);
    forall i, j | 0 <= i < |es| && 0 <= j < |es| && es[i].inode == n && es[j].inode == n ensures i == j {
      assert es[i] in es && es[j] in es;
      SortedNamesDistinct(es, i, j);
    }
  }

  // ---- Reachability ----

  ghost predicate ChildOf(ns: Nodes, d: nat, c: nat) {
    IsDir(ns, d) && exists e :: e in ns[d].entries && e.inode == c
  }

  ghost predicate ClosedUnder(ns: Nodes, reached: set<nat>, pending: set<nat>) {
    forall d, c :: d in reached && d !in pending && ChildOf(ns, d, c) ==> c in reached
  }

  lemma {:induction false} ClosedContains(ns: Nodes, reached: set<nat>, p: Path)
    requires ROOT_INODE in reached && ClosedUnder(ns, reached, {}) && Resolve(ns, p).Some?
    ensures Resolve(ns, p).value in reached
  {
    if p != [] {
      var d, e := LastStep(ns, p);
      ClosedContains(ns, reached, p[..|p| - 1]);
      assert ChildOf(ns, d, e.inode);
    }
  }

  lemma ChildReachable(ns: Nodes, d: nat, e: Entry)
    requires LinksOk(ns) && IsDir(ns, d) && e in ns[d].entries && Reachable(ns, d)
    ensures Reachable(ns, e.inode)
  {
    var p :| Resolve(ns, p) == Some(d);
    var q := p + [e.name];
    assert q[..|q| - 1] == p;
    assert DirOk(ns, d);
    FindIff(ns[d].entries, e.name, e.inode);
    assert Resolve(ns, q) == Some(e.inode);
  }

  method Discover(ns: Nodes, d: nat, before: set<nat>, queued: set<nat>) returns (reached: set<nat>, pending: set<nat>)
    requires LinksOk(ns) && IsDir(ns, d) && Reachable(ns, d)
    requires queued <= before <= ns.Keys && d in before && d !in queued
    requires forall n :: n in before ==> Reachable(ns, n)
    requires ClosedUnder(ns, before, queued + {d})
    ensures before <= reached <= ns.Keys && pending <= reached && reached - before <= pending && queued <= pending
    ensures pending <= queued + (reached - before)
    ensures forall n :: n in reached ==> Reachable(ns, n)
    ensures ClosedUnder(ns, reached, pending)
  {
    hide StrictlySorted, Resolve, Reachable;
    reached, pending := before, queued;
    var es := ns[d].entries;
    assert DirOk(ns, d);
    for k := 0 to |es|
      invariant before <= reached <= ns.Keys && pending <= reached && queued <= pending
      invariant reached - before <= pending && pending <= queued + (reached - before)
      invariant forall n :: n in reached ==> Reachable(ns, n)
      invariant ClosedUnder(ns, reached, pending + {d})
      invariant forall i :: 0 <= i < k ==> es[i].inode in reached
      invariant d !in pending
    {
      assert es[k] in es;
      ChildReachable(ns, d, es[k]);
      if es[k].inode !in reached {
        reached, pending := reached + {es[k].inode}, pending + {es[k].inode};
      }
    }
    forall x, c | x in reached && x !in pending && ChildOf(ns, x, c) ensures c in reached {
      if x == d {
        var e :| e in es && e.inode == c;
        var i :| 0 <= i < |es| && es[i] == e;
      }
    }
  }

  /** The work-list search finds exactly the inodes that some path reaches. */
  method CheckReachable(ns: Nodes) returns (ok: bool)
    requires LinksOk(ns)
    ensures ok <==> AllReachable(ns)
  {
    hide StrictlySorted;
    var reached, pending := {ROOT_INODE}, {ROOT_INODE};
    assert Resolve(ns, []) == Some(ROOT_INODE);
    while pending != {}
      invariant ROOT_INODE in reached && pending <= reached <= ns.Keys
      invariant forall n :: n in reached ==> Reachable(ns, n)
      invariant ClosedUnder(ns, reached, pending)
      decreases ns.Keys - reached, pending
    {
      var d :| d in pending;
      pending := pending - {d};
      if ns[d].kind == KIND_DIRECTORY {
        ghost var was := reached;
        assert IsDir(ns, d);
        assert ClosedUnder(ns, reached, pending + {d});
        reached, pending := Discover(ns, d, reached, pending);
        if reached == was {
          assert d !in pending;
        } else {
          assert ns.Keys - reached < ns.Keys - was;
        }
      }
    }
    ok := reached == ns.Keys;
    if !ok {
      var n :| n in ns && n !in reached;
      if Reachable(ns, n) {
        var p :| Resolve(ns, p) == Some(n);
        ClosedContains(ns, reached, p);
      }
    } else {
      forall n | n in ns ensures Reachable(ns, n) {
      }
    }
  }

  // ---- Chains and bitmap ----

  ghost function UsedUpTo(ns: Nodes, to: nat): set<nat> {
    set n, i | n in ns && n < to && 0 <= i < |ns[n].blocks| :: ns[n].blocks[i]
  }

  ghost predicate DisjointUpTo(ns: Nodes, to: nat) {
    forall n, m :: n in ns && m in ns && n < to && m < to && n != m ==> BlockSet(ns[n].blocks) !! BlockSet(ns[m].blocks)
  }

  lemma NotBefore(blocks: seq<nat>, k: nat)
    requires Distinct(blocks) && k < |blocks|
    ensures blocks[k] !in BlockSet(blocks[..k])
  {
    forall i | 0 <= i < k ensures blocks[..k][i] != blocks[k] {
      assert blocks[i] != blocks[k];
    }
  }

  method AddBlocks(blocks: seq<nat>, before: set<nat>) returns (ok: bool, used: set<nat>)
    requires Distinct(blocks)
    ensures ok <==> BlockSet(blocks) !! before
    ensures ok ==> used == before + BlockSet(blocks)
  {
    used := before;
    for k := 0 to |blocks|
      invariant used == before + BlockSet(blocks[..k])
      invariant BlockSet(blocks[..k]) !! before
    {
      if blocks[k] in used {
        assert blocks[k] in BlockSet(blocks);
        NotBefore(blocks, k);
        return false, used;
      }
      assert BlockSet(blocks[..k + 1]) == BlockSet(blocks[..k]) + {blocks[k]} by {
        assert blocks[..k + 1] == blocks[..k] + [blocks[k]];
        forall b ensures b in BlockSet(blocks[..k + 1]) <==> b in BlockSet(blocks[..k]) || b == blocks[k] {
          if b in BlockSet(blocks[..k]) {
            var i :| 0 <= i < k && blocks[..k][i] == b;
            assert blocks[..k + 1][i] == b;
          }
          assert blocks[..k + 1][k] == blocks[k];
        }
      }
      used := used + {blocks[k]};
    }
    assert blocks[..|blocks|] == blocks;
    ok := true;
  }

  lemma UsedExtend(ns: Nodes, n: nat)
    ensures UsedUpTo(ns, n + 1) == UsedUpTo(ns, n) + (if n in ns then BlockSet(ns[n].blocks) else {})
  {
    var extra := if n in ns then BlockSet(ns[n].blocks) else {};
    forall b ensures b in UsedUpTo(ns, n + 1) <==> b in UsedUpTo(ns, n) || b in extra {
      if b in UsedUpTo(ns, n) {
        var m, i :| m in ns && m < n && 0 <= i < |ns[m].blocks| && ns[m].blocks[i] == b;
        assert m < n + 1;
      }
      if n in ns && b in BlockSet(ns[n].blocks) {
        var i :| 0 <= i < |ns[n].blocks| && ns[n].blocks[i] == b;
      }
    }
  }

  lemma DisjointExtend(ns: Nodes, n: nat)
    requires n in ns && DisjointUpTo(ns, n)
    ensures DisjointUpTo(ns, n + 1) <==> BlockSet(ns[n].blocks) !! UsedUpTo(ns, n)
  {
    if DisjointUpTo(ns, n + 1) {
      forall b | b in UsedUpTo(ns, n) ensures b !in BlockSet(ns[n].blocks) {
        var m, i :| m in ns && m < n && 0 <= i < |ns[m].blocks| && ns[m].blocks[i] == b;
        assert b in BlockSet(ns[m].blocks) && BlockSet(ns[m].blocks) !! BlockSet(ns[n].blocks);
      }
    }
    if BlockSet(ns[n].blocks) !! UsedUpTo(ns, n) {
      forall m | m in ns && m < n ensures BlockSet(ns[m].blocks) !! BlockSet(ns[n].blocks) {
        assert BlockSet(ns[m].blocks) <= UsedUpTo(ns, n);
      }
    }
  }

  method CheckChains(ns: Nodes) returns (ok: bool, used: set<nat>)
    requires forall n :: n in ns ==> n < INODE_COUNT && Distinct(ns[n].blocks)
    ensures ok <==> ChainsDisjoint(ns)
    ensures ok ==> used == UsedBlocks(ns)
  {
    hide BlockSet, Distinct, UsedUpTo;
    ok, used := false, {};
    assert UsedUpTo(ns, 0) == {} by { NoneBelowZero(ns); }
    for n := 0 to INODE_COUNT
      invariant used == UsedUpTo(ns, n) && DisjointUpTo(ns, n)
    {
      UsedExtend(ns, n);
      if n in ns {
        DisjointExtend(ns, n);
        var unshared;
        unshared, used := AddBlocks(ns[n].blocks, used);
        if !unshared {
          return;
        }
      }
    }
    UsedToEnd(ns);
    ok := true;
  }

  lemma NoneBelowZero(ns: Nodes)
    ensures UsedUpTo(ns, 0) == {}
  {
  }

  lemma UsedToEnd(ns: Nodes)
    requires forall n :: n in ns ==> n < INODE_COUNT
    ensures UsedUpTo(ns, INODE_COUNT) == UsedBlocks(ns)
  {
  }

  method MarkUsed(bitmap: seq<Byte>, used: set<nat>) returns (r: seq<Byte>)
    requires forall b :: b in used ==> b < 8 * |bitmap|
    ensures |r| == |bitmap|
    ensures forall c :: 0 <= c < 8 * |bitmap| ==> (GetBit(r, c) <==> c in used || GetBit(bitmap, c))
  {
    r := bitmap;
    var left := used;
    while left != {}
      invariant left <= used && |r| == |bitmap|
      invariant forall c :: 0 <= c < 8 * |bitmap| ==> (GetBit(r, c) <==> c in used - left || GetBit(bitmap, c))
    {
      var b :| b in left;
      forall c | 0 <= c < 8 * |bitmap| ensures GetBit(SetBit(r, b, true), c) <==> c == b || GetBit(r, c) {
        SetBitExact(r, b, true, c);
      }
      r := SetBit(r, b, true);
      left := left - {b};
    }
  }

  /** The expected bitmap is built from the reserved ranges and the chains, then compared byte for byte. */
  method CheckBitmap(super: Super, bitmap: seq<Byte>, used: set<nat>) returns (ok: bool)
    requires super.dataStart <= super.total <= 8 * |bitmap|
    requires forall b :: b in used ==> b < super.total
    ensures ok <==> BitmapExact(super, bitmap, used)
  {
    hide GetBit;
    var expected := Zeros(|bitmap|);
    forall c | 0 <= c < 8 * |bitmap| ensures !GetBit(expected, c) {
      ClearBit(expected, c);
    }
    expected := MarkAllocatedRange(expected, 0, super.dataStart);
    expected := MarkAllocatedRange(expected, super.total, 8 * |expected|);
    expected := MarkUsed(expected, used);
    ok := expected == bitmap;
    if BitmapExact(super, bitmap, used) {
      BitmapsAgree(expected, bitmap);
    }
  }

  // ---- The whole check ----

  lemma LoadedBlocks(disk: Disk, img: Img, ns: Nodes, n: nat)
    requires Layout(disk, img) && TableOn(disk, img, ns) && n in ns && n < INODE_COUNT
    ensures Distinct(ns[n].blocks)
    ensures forall b :: b in BlockSet(ns[n].blocks) ==> b < img.super.total
  {
    hide InodeAt, Decode;
    assert NodeOn(disk, img, n, ns[n]);
  }

  method CheckSpace(disk: Disk, img: Img, ns: Nodes) returns (ok: bool)
    requires Layout(disk, img) && TableOn(disk, img, ns) && forall n :: n in ns ==> n < INODE_COUNT
    ensures ok <==> SpaceOk(img.super, img.bitmap, ns)
  {
    hide NodeOn, BlockSet, TableOn, Distinct;
    forall n | n in ns
      ensures Distinct(ns[n].blocks) && forall b :: b in BlockSet(ns[n].blocks) ==> b < img.super.total
    {
      LoadedBlocks(disk, img, ns, n);
    }
    var disjoint, used := CheckChains(ns);
    if !disjoint {
      return false;
    }
    forall b | b in used ensures b < img.super.total {
      UsedMember(ns, b);
    }
    BitmapCovers(disk, img);
    var exact := CheckBitmap(img.super, img.bitmap, used);
    ok := exact && img.super.freeBlocks == img.super.total - img.super.dataStart - |used|;
  }

  lemma UsedMember(ns: Nodes, b: nat)
    requires b in UsedBlocks(ns)
    ensures exists n :: n in ns && b in BlockSet(ns[n].blocks)
  {
    var n, i :| n in ns && 0 <= i < |ns[n].blocks| && ns[n].blocks[i] == b;
    assert b in BlockSet(ns[n].blocks);
  }

  lemma RootOfWellFormed(disk: Disk, img: Img, m: Nodes)
    requires WellFormed(disk, img, m)
    ensures RootOk(m) && RefsOk(m) && AllReachable(m) && SpaceOk(img.super, img.bitmap, m)
    ensures img.super.freeInodes + |m| == INODE_COUNT - 1
  {
    hide TableOn, SpaceOk;
    RefsOfTree(m);
  }

  /** The staged checks after every inode has been loaded. */
  method CheckLoaded(disk: Disk, img: Img, ns: Nodes) returns (ok: bool)
    requires Layout(disk, img) && TableOn(disk, img, ns) && NodesOk(ns)
    requires (forall d :: IsDir(ns, d) ==> ChildLinks(ns, d)) && forall n :: n in ns ==> 1 <= n < INODE_COUNT
    ensures ok <==> RootOk(ns) && RefsOk(ns) && AllReachable(ns) && SpaceOk(img.super, img.bitmap, ns)
    ensures ok ==> TreeOk(ns)
  {
    hide TableOn, SpaceOk, ChildLinks, Layout, AllReachable, NodesOk, RefsOk;
    if !(ROOT_INODE in ns && ns[ROOT_INODE].kind == KIND_DIRECTORY && ns[ROOT_INODE].parent == ROOT_INODE) {
      return false;
    }
    var refs := CheckReferences(ns);
    if !refs {
      return false;
    }
    LinksOfRefs(ns);
    var reach := CheckReachable(ns);
    var space := CheckSpace(disk, img, ns);
    ok := reach && space;
  }

  /** `verify` accepts exactly the well-formed images. */
  method Verify(disk: Disk, img: Img) returns (ok: bool, ns: Nodes)
    requires Layout(disk, img)
    ensures ok ==> WellFormed(disk, img, ns)
    ensures !ok ==> Unacceptable(disk, img)
  {
    hide InodeAt, TableIs, Loaded, TableOn, SpaceOk, ChildLinks, AllReachable, RefsOk, NodesOk, LinksOk;
    ns := map[];
    var read, inodes, free := LoadInodes(disk, img);
    if !read {
      return false, ns;
    }
    var loaded;
    loaded, ns := LoadNodes(disk, img, inodes);
    if !loaded {
      return false, ns;
    }
    LoadedTable(disk, img, inodes, ns);
    LoadedLinks(disk, img, inodes, ns);
    KeyCount(disk, img, inodes, ns);
    var sound := CheckLoaded(disk, img, ns);
    ok := sound && free == img.super.freeInodes;
    if !ok {
      forall m | WellFormed(disk, img, m) ensures false {
        LoadedIsOnly(disk, img, inodes, ns, m);
        RootOfWellFormed(disk, img, m);
      }
    }
  }

  lemma KeyCount(disk: Disk, img: Img, inodes: map<nat, Inode>, ns: Nodes)
    requires |img.inodes| == TABLE_SIZE && Loaded(disk, img, inodes, ns)
    ensures |ns| == |inodes|
  {
    assert |ns| == |ns.Keys| && |inodes| == |inodes.Keys|;
  }
}
