/**
 The state of a copy-on-write transaction between its first allocation and its commit.
 `d0`, `i0`, `ns0` are the committed disk, image and node map; `d`, `img`, `ns` the staged ones.
 */
module ShizukuStaging {
  import opened Options
  import opened ByteStrings
  import opened ShizukuFormat
  import opened ShizukuDirectory
  import opened ShizukuBitmap
  import opened ShizukuTree
  import opened ShizukuImage

  /** No block the committed generation marks as allocated has been overwritten. */
  ghost predicate OnlyFreeWritten(d0: Disk, i0: Img, d: Disk) {
    && |d| == |d0|
    && forall b :: 0 <= b < |d0| && (b < 8 * |i0.bitmap| ==> GetBit(i0.bitmap, b)) ==> d[b] == d0[b]
  }

  ghost predicate BitsAre(i0: Img, bitmap: seq<Byte>, alloc: set<nat>) {
    && |bitmap| == |i0.bitmap|
    && forall b :: 0 <= b < 8 * |bitmap| ==> (GetBit(bitmap, b) <==> GetBit(i0.bitmap, b) || b in alloc)
  }

  /** Where the allocator stands: everything below `next` is taken, and `free` counts the rest. */
  ghost predicate AllocatorOk(i0: Img, bitmap: seq<Byte>, free: nat, next: nat, alloc: set<nat>)
    requires i0.super.total <= 8 * |i0.bitmap|
  {
    && BitsAre(i0, bitmap, alloc)
    && i0.super.dataStart <= next <= i0.super.total
    && (forall b :: b in alloc ==> i0.super.dataStart <= b < next && !GetBit(i0.bitmap, b))
    && (forall b :: i0.super.dataStart <= b < next ==> GetBit(bitmap, b))
    && free == CountClear(bitmap, next, i0.super.total)
    && free + |alloc| == i0.super.freeBlocks
  }

  /** Blocks are conserved: staged chains, chains to release and blocks in hand. */
  ghost predicate Accounted(ns0: Nodes, ns: Nodes, alloc: set<nat>, release: set<nat>, pending: set<nat>) {
    && ChainsDisjoint(ns)
    && UsedBlocks(ns) + release + pending == UsedBlocks(ns0) + alloc
    && UsedBlocks(ns) !! release && UsedBlocks(ns) !! pending && release !! pending
    && release <= UsedBlocks(ns0)
  }

  ghost predicate Staged(d0: Disk, i0: Img, ns0: Nodes, d: Disk, img: Img, ns: Nodes,
                         free: nat, next: nat, alloc: set<nat>, release: set<nat>, pending: set<nat>) {
    && WellFormed(d0, i0, ns0)
    && i0.super.total <= 8 * |i0.bitmap|
    && OnlyFreeWritten(d0, i0, d)
    && img.super == i0.super.(generation := i0.super.generation + 1)
    && AllocatorOk(i0, img.bitmap, free, next, alloc)
    && |img.inodes| == TABLE_SIZE
    && TableOn(d, img, ns)
    && Accounted(ns0, ns, alloc, release, pending)
  }

  lemma WellFormedUsed(d0: Disk, i0: Img, ns0: Nodes, b: nat)
    requires WellFormed(d0, i0, ns0)
    ensures i0.super.total <= 8 * |i0.bitmap|
    ensures b in UsedBlocks(ns0) <==> Allocated(i0.super, i0.bitmap, b)
  {
    BitmapCovers(d0, i0);
    if b in UsedBlocks(ns0) {
      var n, i :| n in ns0 && 0 <= i < |ns0[n].blocks| && ns0[n].blocks[i] == b;
      UsedIsAllocated(d0, i0, ns0, n, i);
    }
  }

  /** A fresh transaction. */
  lemma StagedInitially(d0: Disk, i0: Img, ns0: Nodes)
    requires WellFormed(d0, i0, ns0)
    ensures var img := i0.(super := i0.super.(generation := i0.super.generation + 1));
      Staged(d0, i0, ns0, d0, img, ns0, i0.super.freeBlocks, i0.super.dataStart, {}, {}, {})
  {
    hide GetBit, CountClear, NodeOn, TreeOk, InodeAt;
    BitmapCovers(d0, i0);
    var img := i0.(super := i0.super.(generation := i0.super.generation + 1));
    forall b | b in UsedBlocks(ns0) ensures i0.super.dataStart <= b < i0.super.total {
      WellFormedUsed(d0, i0, ns0, b);
    }
    CountClearIs(i0.bitmap, i0.super.dataStart, i0.super.total, UsedBlocks(ns0));
    forall n | 0 <= n < INODE_COUNT && n in ns0 ensures NodeOn(d0, img, n, ns0[n]) {
      assert NodeOn(d0, i0, n, ns0[n]);
      forall i | 0 <= i < |ns0[n].blocks| ensures Allocated(img.super, img.bitmap, ns0[n].blocks[i]) {
        UsedIsAllocated(d0, i0, ns0, n, i);
      }
      NodeFrame(d0, i0, d0, img, n, ns0[n]);
    }
  }

  // ---- Allocation ----

  lemma AllocatedBit(bm: seq<Byte>, next: nat, b: nat, total: nat)
    requires next <= b < total <= 8 * |bm| && !GetBit(bm, b)
    requires forall c :: next <= c < b ==> GetBit(bm, c)
    ensures CountClear(bm, next, total) == 1 + CountClear(SetBit(bm, b, true), b + 1, total)
    ensures forall c :: 0 <= c < 8 * |bm| ==> (GetBit(SetBit(bm, b, true), c) <==> c == b || GetBit(bm, c))
    decreases b - next
  {
    forall c | 0 <= c < 8 * |bm| ensures GetBit(SetBit(bm, b, true), c) <==> c == b || GetBit(bm, c) {
      SetBitExact(bm, b, true, c);
    }
    if next == b {
      CountClearFrame(bm, SetBit(bm, b, true), b + 1, total);
    } else {
      AllocatedBit(bm, next + 1, b, total);
    }
  }

  /** Taking the first clear block keeps the allocator's accounts. */
  lemma AllocateOne(i0: Img, bitmap: seq<Byte>, free: nat, next: nat, alloc: set<nat>, b: nat)
    requires i0.super.total <= 8 * |i0.bitmap|
    requires AllocatorOk(i0, bitmap, free, next, alloc)
    requires next <= b < i0.super.total && !GetBit(bitmap, b)
    requires forall c :: next <= c < b ==> GetBit(bitmap, c)
    ensures free > 0 && b !in alloc && !GetBit(i0.bitmap, b)
    ensures AllocatorOk(i0, SetBit(bitmap, b, true), free - 1, b + 1, alloc + {b})
  {
    AllocatedBit(bitmap, next, b, i0.super.total);
  }

  lemma {:induction false} NoneClear(bm: seq<Byte>, lo: nat, hi: nat)
    requires lo <= hi <= 8 * |bm|
    requires forall c :: lo <= c < hi ==> GetBit(bm, c)
    ensures CountClear(bm, lo, hi) == 0
    decreases hi - lo
  {
    if lo < hi {
      NoneClear(bm, lo + 1, hi);
    }
  }

  lemma TableAfterAllocation(d: Disk, img: Img, ns: Nodes, bitmap': seq<Byte>)
    requires |img.inodes| == TABLE_SIZE && TableOn(d, img, ns) && |bitmap'| == |img.bitmap|
    requires forall b :: 0 <= b < 8 * |img.bitmap| && GetBit(img.bitmap, b) ==> GetBit(bitmap', b)
    ensures TableOn(d, img.(bitmap := bitmap'), ns)
  {
    forall n | 0 <= n < INODE_COUNT && n in ns ensures NodeOn(d, img.(bitmap := bitmap'), n, ns[n]) {
      assert NodeOn(d, img, n, ns[n]);
      NodeFrame(d, img, d, img.(bitmap := bitmap'), n, ns[n]);
    }
  }

  lemma AccountedAfterAllocation(ns0: Nodes, ns: Nodes, alloc: set<nat>, release: set<nat>, pending: set<nat>)
    requires Accounted(ns0, ns, alloc, release, {}) && pending !! alloc && pending !! UsedBlocks(ns0)
    ensures Accounted(ns0, ns, alloc + pending, release, pending)
  {
    var used, used0 := UsedBlocks(ns), UsedBlocks(ns0);
    assert used + release + {} == used0 + alloc;
    forall b | b in used || b in release ensures b !in pending {
      assert b in used0 + alloc;
    }
    assert used + release + pending == used0 + (alloc + pending);
  }

  ghost predicate FreshBlocks(i0: Img, alloc: set<nat>, blocks: set<nat>) {
    && blocks !! alloc
    && forall b :: b in blocks ==> b < 8 * |i0.bitmap| && !GetBit(i0.bitmap, b)
  }

  /** New bits do not disturb the nodes already staged. */
  lemma StagedAfterAllocation(d0: Disk, i0: Img, ns0: Nodes, d: Disk, img: Img, ns: Nodes,
                              free: nat, next: nat, alloc: set<nat>, release: set<nat>,
                              bitmap': seq<Byte>, free': nat, next': nat, pending: set<nat>)
    requires Staged(d0, i0, ns0, d, img, ns, free, next, alloc, release, {})
    requires FreshBlocks(i0, alloc, pending)
    requires AllocatorOk(i0, bitmap', free', next', alloc + pending)
    ensures Staged(d0, i0, ns0, d, img.(bitmap := bitmap'), ns, free', next', alloc + pending, release, pending)
  {
    TableAfterAllocation(d, img, ns, bitmap');
    forall b | b in pending ensures b !in UsedBlocks(ns0) {
      WellFormedUsed(d0, i0, ns0, b);
    }
    AccountedAfterAllocation(ns0, ns, alloc, release, pending);
  }

  // ---- Storing an inode with its new chain ----

  lemma InodeForFits(n: nat, nd: Node)
    requires n < INODE_COUNT && nd.parent < INODE_COUNT && ValidKind(nd.kind)
    requires |nd.blocks| == BlocksFor(|nd.content|) <= MAX_CHAIN_BLOCKS && First(nd.blocks) < Pow256(4)
    requires 0 < nd.generation < Pow256(8)
    ensures InodeFits(InodeFor(n, nd))
  {
    PowValues();
    var v := InodeValues(InodeFor(n, nd));
    assert |nd.content| <= MAX_CHAIN_BLOCKS * DATA_PAYLOAD_SIZE;
    assert v[6] == |nd.content|;
  }

  lemma StoredSlot(inodes: seq<Byte>, n: nat, nd: Node, m: nat)
    requires |inodes| == TABLE_SIZE && n < INODE_COUNT && m < INODE_COUNT && InodeFits(InodeFor(n, nd))
    ensures var inodes' := WithSlot(inodes, n, InodeBytes(InodeFor(n, nd)));
      InodeAt(inodes', m) == if m == n then Used(InodeFor(n, nd)) else InodeAt(inodes, m)
  {
    SlotOfWithSlot(inodes, n, InodeBytes(InodeFor(n, nd)), m);
    InodeRoundTrip(InodeFor(n, nd));
  }

  ghost predicate WrittenOnly(d: Disk, d': Disk, blocks: seq<nat>) {
    |d'| == |d| && forall b :: 0 <= b < |d| && b !in BlockSet(blocks) ==> d'[b] == d[b]
  }

  ghost function OldBlocks(ns: Nodes, n: nat): set<nat> {
    if n in ns then BlockSet(ns[n].blocks) else {}
  }

  lemma UsedOfUpdate(ns: Nodes, n: nat, nd: Node)
    requires ChainsDisjoint(ns)
    requires UsedBlocks(ns) !! BlockSet(nd.blocks)
    ensures UsedBlocks(ns[n := nd]) == (UsedBlocks(ns) - OldBlocks(ns, n)) + BlockSet(nd.blocks)
    ensures ChainsDisjoint(ns[n := nd])
  {
    var ns' := ns[n := nd];
    forall b ensures b in UsedBlocks(ns') <==> b in (UsedBlocks(ns) - OldBlocks(ns, n)) + BlockSet(nd.blocks) {
      if b in UsedBlocks(ns') {
        var m, i :| m in ns' && 0 <= i < |ns'[m].blocks| && ns'[m].blocks[i] == b;
        if m != n {
          assert b in BlockSet(ns[m].blocks);
          if n in ns {
            assert BlockSet(ns[m].blocks) !! BlockSet(ns[n].blocks);
          }
        }
      }
      if b in UsedBlocks(ns) && b !in OldBlocks(ns, n) {
        var m, i :| m in ns && 0 <= i < |ns[m].blocks| && ns[m].blocks[i] == b;
        assert m in ns' && ns'[m] == ns[m];
      }
      if b in BlockSet(nd.blocks) {
        var i :| 0 <= i < |nd.blocks| && nd.blocks[i] == b;
        assert ns'[n].blocks[i] == b;
      }
    }
    forall x, y | x in ns' && y in ns' && x != y ensures BlockSet(ns'[x].blocks) !! BlockSet(ns'[y].blocks) {
      if x == n || y == n {
        var z := if x == n then y else x;
        assert BlockSet(ns[z].blocks) <= UsedBlocks(ns);
      }
    }
  }

  lemma AccountedAfterStore(ns0: Nodes, ns: Nodes, alloc: set<nat>, release: set<nat>, n: nat, nd: Node)
    requires Accounted(ns0, ns, alloc, release, BlockSet(nd.blocks))
    requires OldBlocks(ns, n) <= UsedBlocks(ns0)
    ensures Accounted(ns0, ns[n := nd], alloc, release + OldBlocks(ns, n), {})
  {
    UsedOfUpdate(ns, n, nd);
    assert OldBlocks(ns, n) <= UsedBlocks(ns) by {
      if n in ns {
        forall b | b in BlockSet(ns[n].blocks) ensures b in UsedBlocks(ns) {
        }
      }
    }
  }

  /** The new node reads back from the staged disk, and every other staged node still does. */
  lemma TableAfterStore(d: Disk, img: Img, ns: Nodes, d': Disk, n: nat, nd: Node)
    requires |img.inodes| == TABLE_SIZE && n < INODE_COUNT && TableOn(d, img, ns)
    requires InodeFits(InodeFor(n, nd)) && nd.generation <= img.super.generation
    requires |nd.blocks| <= MAX_CHAIN_BLOCKS && BlocksOk(img.super, img.bitmap, nd.blocks)
    requires ChainOn(d', n, nd.blocks, nd.content) && WrittenOnly(d, d', nd.blocks)
    requires if nd.kind == KIND_DIRECTORY then Decode(nd.content) == Some(nd.entries) else nd.entries == []
    requires UsedBlocks(ns) !! BlockSet(nd.blocks)
    ensures TableOn(d', img.(inodes := WithSlot(img.inodes, n, InodeBytes(InodeFor(n, nd)))), ns[n := nd])
  {
    var img' := img.(inodes := WithSlot(img.inodes, n, InodeBytes(InodeFor(n, nd))));
    forall m | 0 <= m < INODE_COUNT
      ensures if m in ns[n := nd] then NodeOn(d', img', m, ns[n := nd][m]) else InodeAt(img'.inodes, m) == Free
    {
      StoredSlot(img.inodes, n, nd, m);
      if m != n && m in ns {
        assert NodeOn(d, img, m, ns[m]);
        forall i | 0 <= i < |ns[m].blocks| && ns[m].blocks[i] < |d| ensures d'[ns[m].blocks[i]] == d[ns[m].blocks[i]] {
          assert ns[m].blocks[i] in UsedBlocks(ns);
        }
        NodeFrame(d, img, d', img', m, ns[m]);
      }
    }
  }

  lemma StagedAfterStore(d0: Disk, i0: Img, ns0: Nodes, d: Disk, img: Img, ns: Nodes,
                         free: nat, next: nat, alloc: set<nat>, release: set<nat>,
                         d': Disk, n: nat, nd: Node)
    requires Staged(d0, i0, ns0, d, img, ns, free, next, alloc, release, BlockSet(nd.blocks))
    requires n < INODE_COUNT && nd.parent < INODE_COUNT && ValidKind(nd.kind)
    requires nd.generation == img.super.generation < Pow256(8)
    requires |nd.blocks| <= MAX_CHAIN_BLOCKS && Distinct(nd.blocks) && BlockSet(nd.blocks) <= alloc
    requires ChainOn(d', n, nd.blocks, nd.content) && WrittenOnly(d, d', nd.blocks)
    requires if nd.kind == KIND_DIRECTORY then Decode(nd.content) == Some(nd.entries) else nd.entries == []
    requires OldBlocks(ns, n) <= UsedBlocks(ns0)
    ensures InodeFits(InodeFor(n, nd))
    ensures Staged(d0, i0, ns0, d', img.(inodes := WithSlot(img.inodes, n, InodeBytes(InodeFor(n, nd)))),
                   ns[n := nd], free, next, alloc, release + OldBlocks(ns, n), {})
  {
    forall i | 0 <= i < |nd.blocks| ensures Allocated(img.super, img.bitmap, nd.blocks[i]) {
      assert nd.blocks[i] in BlockSet(nd.blocks);
    }
    PowValues();
    assert First(nd.blocks) < Pow256(4) by {
      if nd.blocks != [] {
        assert Allocated(img.super, img.bitmap, nd.blocks[0]);
      }
    }
    InodeForFits(n, nd);
    TableAfterStore(d, img, ns, d', n, nd);
    AccountedAfterStore(ns0, ns, alloc, release, n, nd);
    assert OnlyFreeWritten(d0, i0, d') by {
      forall b | 0 <= b < |d0| && (b < 8 * |i0.bitmap| ==> GetBit(i0.bitmap, b)) ensures d'[b] == d0[b] {
        assert b in BlockSet(nd.blocks) ==> b in alloc;
      }
    }
  }

  // ---- Freeing an inode ----

  lemma UsedOfRemove(ns: Nodes, n: nat)
    requires ChainsDisjoint(ns) && n in ns
    ensures UsedBlocks(ns - {n}) == UsedBlocks(ns) - BlockSet(ns[n].blocks)
    ensures ChainsDisjoint(ns - {n})
  {
    var ns' := ns - {n};
    forall b ensures b in UsedBlocks(ns') <==> b in UsedBlocks(ns) - BlockSet(ns[n].blocks) {
      if b in UsedBlocks(ns') {
        var m, i :| m in ns' && 0 <= i < |ns'[m].blocks| && ns'[m].blocks[i] == b;
        assert b in BlockSet(ns[m].blocks) && BlockSet(ns[m].blocks) !! BlockSet(ns[n].blocks);
        assert ns[m].blocks[i] == b;
      }
      if b in UsedBlocks(ns) && b !in BlockSet(ns[n].blocks) {
        var m, i :| m in ns && 0 <= i < |ns[m].blocks| && ns[m].blocks[i] == b;
        assert m in ns' && ns'[m].blocks[i] == b;
      }
    }
  }

  lemma FreeSlot(inodes: seq<Byte>, n: nat, m: nat)
    requires |inodes| == TABLE_SIZE && n < INODE_COUNT && m < INODE_COUNT
    ensures InodeAt(WithSlot(inodes, n, Zeros(INODE_SIZE)), m) == if m == n then Free else InodeAt(inodes, m)
  {
    SlotOfWithSlot(inodes, n, Zeros(INODE_SIZE), m);
  }

  lemma TableAfterFree(d: Disk, img: Img, ns: Nodes, n: nat)
    requires |img.inodes| == TABLE_SIZE && TableOn(d, img, ns) && n < INODE_COUNT
    ensures TableOn(d, img.(inodes := WithSlot(img.inodes, n, Zeros(INODE_SIZE))), ns - {n})
  {
    var img' := img.(inodes := WithSlot(img.inodes, n, Zeros(INODE_SIZE)));
    forall m | 0 <= m < INODE_COUNT
      ensures if m in ns - {n} then NodeOn(d, img', m, (ns - {n})[m]) else InodeAt(img'.inodes, m) == Free
    {
      FreeSlot(img.inodes, n, m);
      if m != n && m in ns {
        assert NodeOn(d, img, m, ns[m]);
        NodeFrame(d, img, d, img', m, ns[m]);
      }
    }
  }

  lemma AccountedAfterFree(ns0: Nodes, ns: Nodes, alloc: set<nat>, release: set<nat>, n: nat)
    requires Accounted(ns0, ns, alloc, release, {}) && n in ns && BlockSet(ns[n].blocks) <= UsedBlocks(ns0)
    ensures Accounted(ns0, ns - {n}, alloc, release + BlockSet(ns[n].blocks), {})
  {
    UsedOfRemove(ns, n);
    assert BlockSet(ns[n].blocks) <= UsedBlocks(ns) by {
      forall b | b in BlockSet(ns[n].blocks) ensures b in UsedBlocks(ns) {
      }
    }
  }

  lemma StagedAfterRelease(d0: Disk, i0: Img, ns0: Nodes, d: Disk, img: Img, ns: Nodes,
                           free: nat, next: nat, alloc: set<nat>, release: set<nat>, n: nat)
    requires Staged(d0, i0, ns0, d, img, ns, free, next, alloc, release, {})
    requires n in ns && n < INODE_COUNT && BlockSet(ns[n].blocks) <= UsedBlocks(ns0)
    ensures Staged(d0, i0, ns0, d, img.(inodes := WithSlot(img.inodes, n, Zeros(INODE_SIZE))), ns - {n},
                   free, next, alloc, release + BlockSet(ns[n].blocks), {})
  {
    TableAfterFree(d, img, ns, n);
    AccountedAfterFree(ns0, ns, alloc, release, n);
  }

  // ---- Commit ----

  /** Bits after the released blocks are cleared. */
  ghost predicate Cleared(bitmap: seq<Byte>, bitmap': seq<Byte>, release: set<nat>) {
    && |bitmap'| == |bitmap|
    && forall b :: 0 <= b < 8 * |bitmap| ==> (GetBit(bitmap', b) <==> GetBit(bitmap, b) && b !in release)
  }

  lemma LayoutOfWellFormed(d0: Disk, i0: Img, ns0: Nodes)
    requires WellFormed(d0, i0, ns0)
    ensures i0.super.freeBlocks + |UsedBlocks(ns0)| == i0.super.total - i0.super.dataStart
    ensures BitmapExact(i0.super, i0.bitmap, UsedBlocks(ns0))
  {
    hide TableOn, TreeOk, BitmapExact;
  }

  lemma SameTotal(a: set<nat>, b: set<nat>, c: set<nat>, d: set<nat>)
    requires a !! b && c !! d && a + b == c + d
    ensures |a| + |b| == |c| + |d|
  {
    assert |a + b| == |a| + |b| && |c + d| == |c| + |d|;
  }

  /** Setting the allocated bits and clearing the released ones leaves exactly the staged chains. */
  lemma BitmapAfterClear(i0: Img, bitmap: seq<Byte>, bitmap': seq<Byte>,
                         used0: set<nat>, used: set<nat>, alloc: set<nat>, release: set<nat>)
    requires BitmapExact(i0.super, i0.bitmap, used0) && BitsAre(i0, bitmap, alloc) && Cleared(bitmap, bitmap', release)
    requires used + release == used0 + alloc && used !! release
    requires forall b :: b in release ==> i0.super.dataStart <= b < i0.super.total
    ensures BitmapExact(i0.super, bitmap', used)
  {
    hide GetBit;
    forall b | 0 <= b < 8 * |bitmap'|
      ensures GetBit(bitmap', b) <==> b < i0.super.dataStart || b >= i0.super.total || b in used
    {
      assert b in used + release <==> b in used0 + alloc;
    }
  }

  lemma StagedSpace(d0: Disk, i0: Img, ns0: Nodes, d: Disk, img: Img, ns: Nodes,
                    free: nat, next: nat, alloc: set<nat>, release: set<nat>, bitmap': seq<Byte>)
    requires Staged(d0, i0, ns0, d, img, ns, free, next, alloc, release, {})
    requires Cleared(img.bitmap, bitmap', release)
    ensures SpaceOk(img.super.(freeBlocks := free + |release|), bitmap', ns)
  {
    hide GetBit, CountClear, WellFormed, TableOn, ChainsDisjoint, BitsAre, Cleared, BitmapExact, OnlyFreeWritten;
    LayoutOfWellFormed(d0, i0, ns0);
    var used, used0 := UsedBlocks(ns), UsedBlocks(ns0);
    forall b ensures b in used0 <==> Allocated(i0.super, i0.bitmap, b) {
      WellFormedUsed(d0, i0, ns0, b);
    }
    assert used + release == used0 + alloc;
    SameTotal(used, release, used0, alloc);
    BitmapAfterClear(i0, img.bitmap, bitmap', used0, used, alloc, release);
    SameExtent(img.super, i0.super, bitmap', used, free + |release|);
  }

  lemma SameExtent(super: Super, super0: Super, bitmap: seq<Byte>, used: set<nat>, free: nat)
    requires BitmapExact(super0, bitmap, used) && super == super0.(generation := super.generation)
    ensures BitmapExact(super.(freeBlocks := free), bitmap, used)
  {
  }

  lemma TableAfterClear(d: Disk, img: Img, ns: Nodes, img': Img, release: set<nat>)
    requires |img.inodes| == TABLE_SIZE && TableOn(d, img, ns)
    requires Cleared(img.bitmap, img'.bitmap, release) && UsedBlocks(ns) !! release
    requires img'.inodes == img.inodes && img'.super.dataStart == img.super.dataStart
    requires img'.super.total == img.super.total && img'.super.generation == img.super.generation
    ensures TableOn(d, img', ns)
  {
    forall n | 0 <= n < INODE_COUNT && n in ns ensures NodeOn(d, img', n, ns[n]) {
      assert NodeOn(d, img, n, ns[n]);
      forall i | 0 <= i < |ns[n].blocks| ensures Allocated(img'.super, img'.bitmap, ns[n].blocks[i]) {
        assert ns[n].blocks[i] in UsedBlocks(ns);
      }
      NodeFrame(d, img, d, img', n, ns[n]);
    }
  }

  /** The committed successor of a transaction satisfies the image invariant. */
  lemma CommitWellFormed(d0: Disk, i0: Img, ns0: Nodes, d: Disk, img: Img, ns: Nodes,
                         free: nat, next: nat, alloc: set<nat>, release: set<nat>, i1: Img)
    requires Staged(d0, i0, ns0, d, img, ns, free, next, alloc, release, {})
    requires TreeOk(ns)
    requires Cleared(img.bitmap, i1.bitmap, release) && i1.inodes == img.inodes
    requires i1.super == img.super.(slot := 1 - i0.super.slot, freeBlocks := free + |release|,
                                    freeInodes := i1.super.freeInodes, metadataCrc := i1.super.metadataCrc)
    requires i1.super.freeInodes + |ns| == INODE_COUNT - 1
    ensures WellFormed(d, i1, ns)
  {
    hide GetBit, TableOn, BitmapExact, ChainsDisjoint, CountClear, NodeOn, SuperValid, TreeOk;
    StagedSpace(d0, i0, ns0, d, img, ns, free, next, alloc, release, i1.bitmap);
    TableAfterClear(d, img, ns, i1, release);
    SameSpace(img.super.(freeBlocks := free + |release|), i1.super, i1.bitmap, ns);
    assert |ns| > 0 by { RootStaged(ns); }
    CommitLayout(d0, i0, d, i1);
  }

  lemma RootStaged(ns: Nodes)
    requires TreeOk(ns)
    ensures |ns| > 0
  {
    assert ROOT_INODE in ns;
  }

  lemma SameSpace(super: Super, super': Super, bitmap: seq<Byte>, ns: Nodes)
    requires SpaceOk(super, bitmap, ns) && super'.freeBlocks == super.freeBlocks
    requires super'.dataStart == super.dataStart && super'.total == super.total
    ensures SpaceOk(super', bitmap, ns) && super'.freeBlocks <= super'.total - super'.dataStart
  {
  }

  lemma CommitLayout(d0: Disk, i0: Img, d: Disk, i1: Img)
    requires Layout(d0, i0) && |d| == |d0| && |i1.bitmap| == |i0.bitmap| && |i1.inodes| == |i0.inodes|
    requires i1.super == i0.super.(slot := 1 - i0.super.slot, generation := i0.super.generation + 1,
                                   freeBlocks := i1.super.freeBlocks, freeInodes := i1.super.freeInodes,
                                   metadataCrc := i1.super.metadataCrc)
    requires i1.super.freeBlocks <= i1.super.total - i1.super.dataStart && i1.super.freeInodes <= INODE_COUNT - 2
    ensures Layout(d, i1)
  {
  }
}
