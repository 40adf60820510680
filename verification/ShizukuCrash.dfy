/**
 Opening an image, and what a crash can leave of the two-slot commit.
 Writes that no completed `fsync` covers may be lost, reordered or torn block by block;
 the one assumption is that a torn superblock does not pass the superblock reader.
 */
module ShizukuCrash {
  import opened Options
  import opened ByteStrings
  import opened ShizukuFormat
  import opened ShizukuBitmap
  import opened ShizukuTree
  import opened ShizukuImage

  // ---- Reading ----

  function Join(blocks: seq<Block>): (r: seq<Byte>)
    ensures |r| == |blocks| * BLOCK_SIZE
  {
    if blocks == [] then [] else Join(blocks[..|blocks| - 1]) + blocks[|blocks| - 1]
  }

  function Split(bytes: seq<Byte>): (r: seq<Block>)
    requires |bytes| % BLOCK_SIZE == 0
    ensures |r| == |bytes| / BLOCK_SIZE
    decreases |bytes|
  {
    if bytes == [] then []
    else Split(bytes[..|bytes| - BLOCK_SIZE]) + [bytes[|bytes| - BLOCK_SIZE..]]
  }

  lemma {:induction false} JoinOfSplit(bytes: seq<Byte>)
    requires |bytes| % BLOCK_SIZE == 0
    ensures Join(Split(bytes)) == bytes
    decreases |bytes|
  {
    if bytes != [] {
      var front, last := bytes[..|bytes| - BLOCK_SIZE], bytes[|bytes| - BLOCK_SIZE..];
      JoinOfSplit(front);
      var r := Split(bytes);
      assert r[..|r| - 1] == Split(front) && r[|r| - 1] == last;
      assert bytes == front + last;
    }
  }

  function MetadataOf(disk: Disk, super: Super): (r: seq<Byte>)
    requires super.MetadataStart(super.slot) + super.MetadataBlocks() <= |disk|
    ensures |r| == super.MetadataBlocks() * BLOCK_SIZE
  {
    Join(disk[super.MetadataStart(super.slot)..super.MetadataStart(super.slot) + super.MetadataBlocks()])
  }

  predicate InMetadata(super: Super, b: nat) {
    super.MetadataStart(super.slot) <= b < super.MetadataStart(super.slot) + super.MetadataBlocks()
  }

  lemma MetadataInside(super: Super, slot: nat, size: nat)
    requires slot < 2 && SuperValid(super, slot, size)
    ensures 2 <= super.MetadataStart(slot)
    ensures super.MetadataStart(slot) + super.MetadataBlocks() <= super.dataStart < super.total
  {
    if slot == 1 {
      assert super.MetadataStart(1) == 2 + super.MetadataBlocks();
    }
  }

  /** One candidate generation: a valid superblock whose metadata checksum matches. */
  function OpenSlot(disk: Disk, slot: nat): Option<Img>
    requires |disk| >= MIN_BLOCKS && slot < 2
  {
    var parsed := FromBlock(disk[slot], slot, |disk| * BLOCK_SIZE);
    if !parsed.Good? then None
    else
      var super := parsed.super;
      SuperAcceptsOnlyWritten(disk[slot], slot, |disk| * BLOCK_SIZE);
      MetadataInside(super, slot, |disk| * BLOCK_SIZE);
      var metadata := MetadataOf(disk, super);
      if Crc(metadata) != super.metadataCrc then None
      else
        var n := super.bitmapBlocks * BLOCK_SIZE;
        Some(Img(super, metadata[..n], metadata[n..]))
  }

  datatype OpenResult = Opened(img: Img) | OpenUnsupported | OpenCorrupt

  /** The highest valid generation; on a tie the first slot. */
  function Open(disk: Disk): OpenResult {
    if |disk| < MIN_BLOCKS then OpenCorrupt
    else
      var a, b := OpenSlot(disk, 0), OpenSlot(disk, 1);
      if a.None? && b.None? then
        var size := |disk| * BLOCK_SIZE;
        if FromBlock(disk[0], 0, size).UnsupportedVersion? || FromBlock(disk[1], 1, size).UnsupportedVersion?
        then OpenUnsupported else OpenCorrupt
      else if a.Some? && (b.None? || a.value.super.generation >= b.value.super.generation) then Opened(a.value)
      else Opened(b.value)
  }

  /** The in-memory image is the generation that its own slot on disk holds. */
  ghost predicate Attached(disk: Disk, img: Img) {
    |disk| >= MIN_BLOCKS && img.super.slot < 2 && OpenSlot(disk, img.super.slot) == Some(img)
  }

  /** The image's generation is on disk, and any superblock in the other slot is older. */
  ghost predicate Clean(disk: Disk, img: Img) {
    && Attached(disk, img)
    && var other := FromBlock(disk[1 - img.super.slot], 1 - img.super.slot, |disk| * BLOCK_SIZE);
       other.Good? ==> other.super.generation < img.super.generation
  }

  lemma OpenOfClean(disk: Disk, img: Img)
    requires Clean(disk, img)
    ensures Open(disk) == Opened(img)
  {
    hide FromBlock, Crc, MetadataOf;
  }

  // ---- The block device and its crashes ----

  datatype Event = Write(at: nat, blocks: seq<Block>) | Sync

  predicate Covers(e: Event, b: nat) {
    e.Write? && e.at <= b < e.at + |e.blocks|
  }

  function ApplyOne(disk: Disk, e: Event): (r: Disk)
    ensures |r| == |disk|
  {
    seq(|disk|, b requires 0 <= b < |disk| => if Covers(e, b) then e.blocks[b - e.at] else disk[b])
  }

  function Apply(disk: Disk, log: seq<Event>): (r: Disk)
    ensures |r| == |disk|
  {
    if log == [] then disk else ApplyOne(Apply(disk, log[..|log| - 1]), log[|log| - 1])
  }

  /** Number of events up to and including the last completed flush among the first `k`. */
  function LastSync(log: seq<Event>, k: nat): (s: nat)
    requires k <= |log|
    ensures s <= k
  {
    if k == 0 then 0 else if log[k - 1].Sync? then k else LastSync(log, k - 1)
  }

  ghost predicate Touched(log: seq<Event>, from: nat, to: nat, b: nat)
    requires from <= to <= |log|
  {
    exists j :: from <= j < to && Covers(log[j], b)
  }

  /**
   A disk found after a crash when `k` events had been issued: flushed writes are there,
   and every block written since the last flush may hold anything at all.
   */
  ghost predicate CrashDisk(disk: Disk, log: seq<Event>, k: nat, found: Disk)
    requires k <= |log|
  {
    && |found| == |disk|
    && var s := LastSync(log, k);
       forall b :: 0 <= b < |disk| && !Touched(log, s, k, b) ==> found[b] == Apply(disk, log[..s])[b]
  }

  /** Checksums catch torn superblocks: what passes the reader is some complete version. */
  ghost predicate TornDetected(disk: Disk, log: seq<Event>, k: nat, found: Disk)
    requires k <= |log| && |found| == |disk| >= MIN_BLOCKS
  {
    forall slot :: 0 <= slot < 2 && FromBlock(found[slot], slot, |disk| * BLOCK_SIZE).Good? ==>
      exists j {:trigger Apply(disk, log[..j])} :: 0 <= j <= k && found[slot] == Apply(disk, log[..j])[slot]
  }

  lemma {:induction false} ApplyUntouched(disk: Disk, log: seq<Event>, n: nat, b: nat)
    requires n <= |log| && b < |disk|
    requires forall j :: 0 <= j < n ==> !Covers(log[j], b)
    ensures Apply(disk, log[..n])[b] == disk[b]
  {
    if n > 0 {
      assert log[..n][..n - 1] == log[..n - 1] && log[..n][n - 1] == log[n - 1];
      ApplyUntouched(disk, log, n - 1, b);
    }
  }

  lemma ApplySnoc(disk: Disk, log: seq<Event>, e: Event)
    ensures Apply(disk, log + [e]) == ApplyOne(Apply(disk, log), e)
  {
    assert (log + [e])[..|log|] == log;
  }

  // ---- The commit sequence ----

  ghost predicate FreeWrite(disk: Disk, img: Img, e: Event) {
    e.Write? && forall b: nat :: Covers(e, b) && b < |disk| ==> IsFree(img, b)
  }

  predicate IsFree(img: Img, b: nat) {
    img.super.dataStart <= b < 8 * |img.bitmap| && !GetBit(img.bitmap, b)
  }

  /** Data writes of a transaction go to blocks that are free in the committed bitmap. */
  ghost predicate DataLog(disk: Disk, img: Img, log: seq<Event>) {
    forall j :: 0 <= j < |log| ==> FreeWrite(disk, img, log[j])
  }

  function CommitTail(img: Img): (r: seq<Event>)
    requires img.super.slot < 2 && (|img.bitmap| + |img.inodes|) % BLOCK_SIZE == 0
    ensures |r| == 5
  {
    [Sync, Write(img.super.MetadataStart(img.super.slot), Split(img.bitmap + img.inodes)), Sync,
     Write(img.super.slot, [ToBlock(img.super)]), Sync]
  }

  /** `i1` is the generation that a transaction on `i0` publishes in the other slot. */
  ghost predicate Publishes(disk: Disk, i0: Img, i1: Img) {
    && Layout(disk, i0) && Layout(disk, i1)
    && i1.super.slot == 1 - i0.super.slot
    && i1.super.generation == i0.super.generation + 1
    && i1.super.total == i0.super.total && i1.super.bitmapBlocks == i0.super.bitmapBlocks
    && i1.super.dataStart == i0.super.dataStart
    && i1.super.metadataCrc == Crc(i1.bitmap + i1.inodes)
    && i1.super.generation < Pow256(8)
  }

  lemma MetadataSize(disk: Disk, img: Img)
    requires Layout(disk, img)
    ensures |img.bitmap + img.inodes| == img.super.MetadataBlocks() * BLOCK_SIZE
    ensures (|img.bitmap| + |img.inodes|) % BLOCK_SIZE == 0
  {
  }

  /** The other slot's metadata lies apart from both superblocks, this slot's metadata and the data. */
  lemma SlotsApart(disk: Disk, i0: Img, i1: Img, b: nat)
    requires Publishes(disk, i0, i1)
    requires InMetadata(i1.super, b)
    ensures 2 <= b < i0.super.dataStart && !InMetadata(i0.super, b)
  {
    assert i1.super.MetadataBlocks() == i0.super.MetadataBlocks();
    if i0.super.slot == 0 {
      assert i1.super.MetadataStart(1) == 2 + i0.super.MetadataBlocks();
    } else {
      assert i0.super.MetadataStart(1) == 2 + i0.super.MetadataBlocks();
    }
  }

  /** A slot reads the same wherever its superblock and metadata blocks are the same. */
  lemma OpenSlotFrame(disk: Disk, found: Disk, img: Img)
    requires |found| == |disk| >= MIN_BLOCKS && img.super.slot < 2
    requires OpenSlot(disk, img.super.slot) == Some(img)
    requires found[img.super.slot] == disk[img.super.slot]
    requires forall b: nat :: b < |disk| && InMetadata(img.super, b) ==> found[b] == disk[b]
    ensures OpenSlot(found, img.super.slot) == Some(img)
  {
    hide FromBlock, ToBlock, Crc, Join;
    var slot := img.super.slot;
    SuperAcceptsOnlyWritten(disk[slot], slot, |disk| * BLOCK_SIZE);
    MetadataInside(img.super, slot, |disk| * BLOCK_SIZE);
    var lo, n := img.super.MetadataStart(slot), img.super.MetadataBlocks();
    assert found[lo..lo + n] == disk[lo..lo + n];
  }

  /** Every crash in which the old superblock and metadata survive leaves the old generation. */
  lemma OldSurvives(disk: Disk, i0: Img, ns0: Nodes, found: Disk)
    requires WellFormed(disk, i0, ns0) && Clean(disk, i0) && |found| == |disk|
    requires found[i0.super.slot] == disk[i0.super.slot]
    requires var other := FromBlock(found[1 - i0.super.slot], 1 - i0.super.slot, |disk| * BLOCK_SIZE);
      other.Good? ==> other.super.generation < i0.super.generation
    requires forall b: nat :: b < |disk| && InMetadata(i0.super, b) ==> found[b] == disk[b]
    requires forall b :: 0 <= b < |disk| && Allocated(i0.super, i0.bitmap, b) ==> found[b] == disk[b]
    ensures Clean(found, i0) && WellFormed(found, i0, ns0)
  {
    OpenSlotFrame(disk, found, i0);
    WellFormedFrame(disk, found, i0, ns0);
  }

  /** Once metadata and superblock are in place, the new generation is the one that opens. */
  lemma NewOpens(disk: Disk, i0: Img, i1: Img, found: Disk)
    requires Publishes(disk, i0, i1) && |found| == |disk|
    requires found[i1.super.slot] == ToBlock(i1.super)
    requires var lo := i1.super.MetadataStart(i1.super.slot);
      lo + i1.super.MetadataBlocks() <= |found|
      && Join(found[lo..lo + i1.super.MetadataBlocks()]) == i1.bitmap + i1.inodes
    requires FromBlock(found[i0.super.slot], i0.super.slot, |disk| * BLOCK_SIZE) == Good(i0.super)
    ensures Clean(found, i1)
  {
    hide FromBlock, ToBlock, Crc, Join;
    var slot := i1.super.slot;
    SuperRoundTrip(i1.super, slot, |disk| * BLOCK_SIZE);
    MetadataInside(i1.super, slot, |disk| * BLOCK_SIZE);
    var n := i1.super.bitmapBlocks * BLOCK_SIZE;
    assert (i1.bitmap + i1.inodes)[..n] == i1.bitmap && (i1.bitmap + i1.inodes)[n..] == i1.inodes;
  }

  // ---- The log of one committed transaction ----

  ghost predicate CommitLog(disk: Disk, i0: Img, i1: Img, data: seq<Event>, log: seq<Event>) {
    && i1.super.slot < 2 && (|i1.bitmap| + |i1.inodes|) % BLOCK_SIZE == 0
    && log == data + CommitTail(i1)
    && Publishes(disk, i0, i1) && DataLog(disk, i0, data)
  }

  /** The five events of a commit behind its data writes. */
  ghost predicate TailIs(i1: Img, data: seq<Event>, log: seq<Event>) {
    && (|i1.bitmap| + |i1.inodes|) % BLOCK_SIZE == 0
    && |log| == |data| + 5 && data <= log
    && log[|data|] == Sync && log[|data| + 2] == Sync && log[|data| + 4] == Sync
    && log[|data| + 1] == Write(i1.super.MetadataStart(i1.super.slot), Split(i1.bitmap + i1.inodes))
    && log[|data| + 3] == Write(i1.super.slot, [ToBlock(i1.super)])
  }

  lemma {:induction false} DataHasNoSync(disk: Disk, i0: Img, data: seq<Event>, log: seq<Event>, k: nat)
    requires DataLog(disk, i0, data) && data <= log && k <= |data|
    ensures LastSync(log, k) == 0
  {
    if k > 0 {
      assert log[k - 1] == data[k - 1];
      DataHasNoSync(disk, i0, data, log, k - 1);
    }
  }

  lemma TailEvents(disk: Disk, i0: Img, i1: Img, data: seq<Event>, log: seq<Event>)
    requires CommitLog(disk, i0, i1, data, log)
    ensures TailIs(i1, data, log)
  {
    hide Publishes, DataLog, Split, ToBlock;
  }

  lemma SyncPoints(disk: Disk, i0: Img, i1: Img, data: seq<Event>, log: seq<Event>, k: nat)
    requires CommitLog(disk, i0, i1, data, log) && k <= |log|
    ensures LastSync(log, k) == if k <= |data| then 0 else if k <= |data| + 2 then |data| + 1
                                else if k <= |data| + 4 then |data| + 3 else |data| + 5
  {
    hide Publishes, DataLog, Split, ToBlock, CommitTail;
    var m := |data|;
    TailEvents(disk, i0, i1, data, log);
    DataHasNoSync(disk, i0, data, log, m);
    assert LastSync(log, m + 1) == m + 1;
    if k <= m {
      DataHasNoSync(disk, i0, data, log, k);
    } else if k == m + 2 {
      assert LastSync(log, k) == LastSync(log, m + 1);
    } else if k == m + 4 {
      assert LastSync(log, m + 3) == m + 3;
    }
  }

  lemma AppliedMetadata(disk: Disk, i0: Img, i1: Img, data: seq<Event>, log: seq<Event>)
    requires CommitLog(disk, i0, i1, data, log)
    ensures |log| == |data| + 5
    ensures Apply(disk, log[..|data|]) == Apply(disk, data) == Apply(disk, log[..|data| + 1])
    ensures Apply(disk, log[..|data| + 2]) == ApplyOne(Apply(disk, data), log[|data| + 1])
            == Apply(disk, log[..|data| + 3])
  {
    hide ToBlock, Split, Publishes, DataLog, ApplyOne;
    var m := |data|;
    TailEvents(disk, i0, i1, data, log);
    assert log[..m] == data;
    assert log[..m + 1] == log[..m] + [Sync];
    SyncChangesNothing(disk, log[..m]);
    assert log[..m + 2] == log[..m + 1] + [log[m + 1]];
    ApplySnoc(disk, log[..m + 1], log[m + 1]);
    assert log[..m + 3] == log[..m + 2] + [Sync];
    SyncChangesNothing(disk, log[..m + 2]);
  }

  lemma AppliedSuper(disk: Disk, i0: Img, i1: Img, data: seq<Event>, log: seq<Event>)
    requires CommitLog(disk, i0, i1, data, log)
    ensures |log| == |data| + 5
    ensures Apply(disk, log[..|data| + 4]) == ApplyOne(Apply(disk, log[..|data| + 3]), log[|data| + 3])
            == Apply(disk, log[..|data| + 5])
  {
    hide ToBlock, Split, Publishes, DataLog, ApplyOne;
    var m := |data|;
    TailEvents(disk, i0, i1, data, log);
    assert log[..m + 4] == log[..m + 3] + [log[m + 3]];
    ApplySnoc(disk, log[..m + 3], log[m + 3]);
    assert log[..m + 5] == log[..m + 4] + [Sync];
    SyncChangesNothing(disk, log[..m + 4]);
  }

  lemma SyncChangesNothing(disk: Disk, log: seq<Event>)
    ensures Apply(disk, log + [Sync]) == Apply(disk, log)
  {
    ApplySnoc(disk, log, Sync);
  }

  // ---- Crash atomicity ----

  /** Blocks that a transaction publishing `i1` over `i0` may write at all. */
  predicate Writable(i0: Img, i1: Img, b: nat) {
    IsFree(i0, b) || InMetadata(i1.super, b) || b == i1.super.slot
  }

  /** As long as the other superblock is not the new one, the old generation stands. */
  lemma OldStands(disk: Disk, i0: Img, ns0: Nodes, i1: Img, found: Disk)
    requires WellFormed(disk, i0, ns0) && Clean(disk, i0) && Publishes(disk, i0, i1) && |found| == |disk|
    requires forall b: nat :: b < |disk| && !Writable(i0, i1, b) ==> found[b] == disk[b]
    requires found[i1.super.slot] == disk[i1.super.slot]
             || !FromBlock(found[i1.super.slot], i1.super.slot, |disk| * BLOCK_SIZE).Good?
    ensures Clean(found, i0) && WellFormed(found, i0, ns0)
  {
    hide FromBlock, OpenSlot, WellFormed, SuperValid;
    forall b: nat | b < |disk| && (InMetadata(i0.super, b) || Allocated(i0.super, i0.bitmap, b) || b == i0.super.slot)
      ensures found[b] == disk[b]
    {
      LayoutFacts(disk, i0);
      if InMetadata(i1.super, b) {
        SlotsApart(disk, i0, i1, b);
      }
    }
    OldSurvives(disk, i0, ns0, found);
  }

  lemma LayoutFacts(disk: Disk, img: Img)
    requires Layout(disk, img)
    ensures img.super.total == |disk| && 2 <= img.super.MetadataStart(img.super.slot)
    ensures img.super.MetadataStart(img.super.slot) + img.super.MetadataBlocks() <= img.super.dataStart
    ensures img.super.total <= 8 * |img.bitmap|
  {
    MetadataInside(img.super, img.super.slot, |disk| * BLOCK_SIZE);
  }

  ghost predicate MetadataWritten(img: Img, found: Disk)
    requires (|img.bitmap| + |img.inodes|) % BLOCK_SIZE == 0
  {
    var blocks := Split(img.bitmap + img.inodes);
    var lo := img.super.MetadataStart(img.super.slot);
    forall b: nat :: b < |found| && lo <= b < lo + |blocks| ==> found[b] == blocks[b - lo]
  }

  lemma MetadataBlocksOf(disk: Disk, i0: Img, i1: Img, found: Disk)
    requires Publishes(disk, i0, i1) && |found| == |disk|
    requires (|i1.bitmap| + |i1.inodes|) % BLOCK_SIZE == 0
    requires MetadataWritten(i1, found)
    ensures var lo := i1.super.MetadataStart(i1.super.slot);
      lo + i1.super.MetadataBlocks() <= |found|
      && Join(found[lo..lo + i1.super.MetadataBlocks()]) == i1.bitmap + i1.inodes
  {
    LayoutFacts(disk, i1);
    MetadataSize(disk, i1);
    var lo, n := i1.super.MetadataStart(i1.super.slot), i1.super.MetadataBlocks();
    assert found[lo..lo + n] == Split(i1.bitmap + i1.inodes);
    JoinOfSplit(i1.bitmap + i1.inodes);
  }

  lemma AttachedSuper(disk: Disk, img: Img)
    requires Attached(disk, img)
    ensures FromBlock(disk[img.super.slot], img.super.slot, |disk| * BLOCK_SIZE) == Good(img.super)
  {
    hide FromBlock, Crc, MetadataOf;
  }

  /** With data, metadata and superblock in place the new generation stands. */
  lemma NewStands(disk: Disk, i0: Img, i1: Img, ns1: Nodes, data: Disk, found: Disk)
    requires Attached(disk, i0) && Publishes(disk, i0, i1) && |found| == |data| == |disk|
    requires (|i1.bitmap| + |i1.inodes|) % BLOCK_SIZE == 0
    requires found[i0.super.slot] == disk[i0.super.slot] && found[i1.super.slot] == ToBlock(i1.super)
    requires WellFormed(data, i1, ns1)
    requires forall b: nat :: i1.super.dataStart <= b < |disk| ==> found[b] == data[b]
    requires MetadataWritten(i1, found)
    ensures Clean(found, i1) && WellFormed(found, i1, ns1)
  {
    hide FromBlock, ToBlock, WellFormed, Split, Join;
    MetadataBlocksOf(disk, i0, i1, found);
    AttachedSuper(disk, i0);
    NewOpens(disk, i0, i1, found);
    WellFormedFrame(data, found, i1, ns1);
  }

  lemma DataKeeps(disk: Disk, i0: Img, data: seq<Event>, n: nat, b: nat)
    requires DataLog(disk, i0, data) && n <= |data| && b < |disk| && !IsFree(i0, b)
    ensures Apply(disk, data[..n])[b] == disk[b]
  {
    forall j | 0 <= j < n ensures !Covers(data[j], b) {
      assert FreeWrite(disk, i0, data[j]);
    }
    ApplyUntouched(disk, data, n, b);
  }

  /** Until the superblock write is issued, only writable blocks differ from the old disk. */
  lemma BeforePublication(disk: Disk, i0: Img, i1: Img, data: seq<Event>, log: seq<Event>, k: nat, found: Disk, b: nat)
    requires CommitLog(disk, i0, i1, data, log) && k <= |data| + 3 && k <= |log|
    requires CrashDisk(disk, log, k, found)
    requires b < |disk| && (!Writable(i0, i1, b) || b == i1.super.slot)
    ensures found[b] == disk[b]
  {
    hide ToBlock, Split, Publishes, DataLog;
    var m := |data|;
    TailEvents(disk, i0, i1, data, log);
    SyncPoints(disk, i0, i1, data, log, k);
    BlockNotFree(disk, i0, i1, b);
    forall j | 0 <= j < m + 3 ensures !Covers(log[j], b) {
      if j < m {
        assert log[j] == data[j];
        NotCovered(disk, i0, data, j, b);
      } else if j == m + 1 {
        MetadataCovers(disk, i0, i1, b);
      }
    }
    assert !Touched(log, LastSync(log, k), k, b);
    ApplyUntouched(disk, log, LastSync(log, k), b);
  }

  lemma BlockNotFree(disk: Disk, i0: Img, i1: Img, b: nat)
    requires Publishes(disk, i0, i1) && (!Writable(i0, i1, b) || b == i1.super.slot)
    ensures !IsFree(i0, b) && !InMetadata(i1.super, b)
  {
    LayoutFacts(disk, i0);
    LayoutFacts(disk, i1);
  }

  lemma NotCovered(disk: Disk, i0: Img, data: seq<Event>, j: nat, b: nat)
    requires DataLog(disk, i0, data) && j < |data| && b < |disk| && !IsFree(i0, b)
    ensures !Covers(data[j], b)
  {
    assert FreeWrite(disk, i0, data[j]);
  }

  lemma MetadataCovers(disk: Disk, i0: Img, i1: Img, b: nat)
    requires Publishes(disk, i0, i1) && (|i1.bitmap| + |i1.inodes|) % BLOCK_SIZE == 0
    ensures Covers(Write(i1.super.MetadataStart(i1.super.slot), Split(i1.bitmap + i1.inodes)), b)
            <==> InMetadata(i1.super, b)
  {
    MetadataSize(disk, i1);
  }

  /** After publication every block is what the completed data and metadata writes left, bar the superblock. */
  lemma AfterPublication(disk: Disk, i0: Img, i1: Img, data: seq<Event>, log: seq<Event>, k: nat, found: Disk, b: nat)
    requires CommitLog(disk, i0, i1, data, log) && |data| + 4 <= k <= |log|
    requires CrashDisk(disk, log, k, found) && b < |disk|
    ensures |log| == |data| + 5
    ensures b != i1.super.slot ==> found[b] == ApplyOne(Apply(disk, data), log[|data| + 1])[b]
    ensures k == |log| && b == i1.super.slot ==> found[b] == ToBlock(i1.super)
  {
    hide ToBlock, Split, Publishes, DataLog;
    var m := |data|;
    TailEvents(disk, i0, i1, data, log);
    SyncPoints(disk, i0, i1, data, log, k);
    AppliedMetadata(disk, i0, i1, data, log);
    AppliedSuper(disk, i0, i1, data, log);
    assert !Touched(log, LastSync(log, k), k, b) || b == i1.super.slot;
  }

  /** Every complete version of the publishing superblock is the old block or the new one. */
  lemma SuperVersions(disk: Disk, i0: Img, i1: Img, data: seq<Event>, log: seq<Event>, j: nat)
    requires CommitLog(disk, i0, i1, data, log) && j <= |log|
    ensures Apply(disk, log[..j])[i1.super.slot] == disk[i1.super.slot]
            || Apply(disk, log[..j])[i1.super.slot] == ToBlock(i1.super)
  {
    hide ToBlock, Split;
    var m, slot := |data|, i1.super.slot;
    TailEvents(disk, i0, i1, data, log);
    BlockNotFree(disk, i0, i1, slot);
    if j <= m + 3 {
      forall i | 0 <= i < j ensures !Covers(log[i], slot) {
        if i < m {
          assert log[i] == data[i];
          NotCovered(disk, i0, data, i, slot);
        } else if i == m + 1 {
          MetadataCovers(disk, i0, i1, slot);
        }
      }
      ApplyUntouched(disk, log, j, slot);
    } else {
      AppliedSuper(disk, i0, i1, data, log);
    }
  }

  ghost predicate BlockPublished(disk: Disk, i1: Img, data: seq<Event>, found: Disk, b: nat) {
    && (|i1.bitmap| + |i1.inodes|) % BLOCK_SIZE == 0 && b < |found| && b < |disk|
    && var lo, blocks := i1.super.MetadataStart(i1.super.slot), Split(i1.bitmap + i1.inodes);
       found[b] == if lo <= b < lo + |blocks| then blocks[b - lo] else Apply(disk, data)[b]
  }

  /** Block by block, what publication left on disk. */
  lemma PublishedBlock(disk: Disk, i0: Img, i1: Img, data: seq<Event>, log: seq<Event>, k: nat, found: Disk, b: nat)
    requires CommitLog(disk, i0, i1, data, log) && |data| + 4 <= k <= |log|
    requires CrashDisk(disk, log, k, found) && b < |disk| && b != i1.super.slot
    ensures BlockPublished(disk, i1, data, found, b)
  {
    hide ToBlock, Split, Publishes, DataLog, Apply;
    TailEvents(disk, i0, i1, data, log);
    AfterPublication(disk, i0, i1, data, log, k, found, b);
  }

  lemma OldSuperKept(disk: Disk, i0: Img, i1: Img, data: seq<Event>)
    requires Publishes(disk, i0, i1) && DataLog(disk, i0, data)
    ensures Apply(disk, data)[i0.super.slot] == disk[i0.super.slot]
    ensures i0.super.slot != i1.super.slot && i0.super.slot < |disk|
    ensures i0.super.slot < i1.super.MetadataStart(i1.super.slot)
  {
    hide DataLog, Apply;
    LayoutFacts(disk, i0);
    LayoutFacts(disk, i1);
    assert data[..|data|] == data;
    DataKeeps(disk, i0, data, |data|, i0.super.slot);
  }

  lemma MetadataBeforeData(disk: Disk, img: Img)
    requires Layout(disk, img) && (|img.bitmap| + |img.inodes|) % BLOCK_SIZE == 0
    ensures img.super.MetadataStart(img.super.slot) + |Split(img.bitmap + img.inodes)| <= img.super.dataStart
    ensures img.super.slot < img.super.MetadataStart(img.super.slot)
  {
    LayoutFacts(disk, img);
    MetadataSize(disk, img);
  }

  lemma MetadataPublished(disk: Disk, i0: Img, i1: Img, data: seq<Event>, log: seq<Event>, k: nat, found: Disk)
    requires Attached(disk, i0) && CommitLog(disk, i0, i1, data, log) && |data| + 4 <= k <= |log|
    requires CrashDisk(disk, log, k, found) && found[i1.super.slot] == ToBlock(i1.super)
    ensures (|i1.bitmap| + |i1.inodes|) % BLOCK_SIZE == 0 && MetadataWritten(i1, found)
  {
    hide ToBlock, Split, FromBlock, OpenSlot, DataLog, CrashDisk, Apply, CommitTail;
    assert |found| == |disk| by { CrashSize(disk, log, k, found); }
    MetadataBeforeData(disk, i1);
    var lo, blocks := i1.super.MetadataStart(i1.super.slot), Split(i1.bitmap + i1.inodes);
    forall b: nat | b < |found| && lo <= b < lo + |blocks| ensures found[b] == blocks[b - lo] {
      PublishedBlock(disk, i0, i1, data, log, k, found, b);
    }
  }

  lemma NewAfterPublication(disk: Disk, i0: Img, i1: Img, ns1: Nodes, data: seq<Event>, log: seq<Event>,
                            k: nat, found: Disk)
    requires Attached(disk, i0) && CommitLog(disk, i0, i1, data, log) && |data| + 4 <= k <= |log|
    requires WellFormed(Apply(disk, data), i1, ns1)
    requires CrashDisk(disk, log, k, found) && found[i1.super.slot] == ToBlock(i1.super)
    ensures Clean(found, i1) && WellFormed(found, i1, ns1)
  {
    hide ToBlock, Split, WellFormed, FromBlock, OpenSlot, DataLog, CrashDisk, Apply, CommitTail, Layout;
    var d1 := Apply(disk, data);
    assert |found| == |disk| by { CrashSize(disk, log, k, found); }
    OldSuperKept(disk, i0, i1, data);
    MetadataBeforeData(disk, i1);
    PublishedBlock(disk, i0, i1, data, log, k, found, i0.super.slot);
    forall b: nat | i1.super.dataStart <= b < |disk| ensures found[b] == d1[b] {
      PublishedBlock(disk, i0, i1, data, log, k, found, b);
    }
    MetadataPublished(disk, i0, i1, data, log, k, found);
    NewStands(disk, i0, i1, ns1, d1, found);
  }

  lemma CrashSize(disk: Disk, log: seq<Event>, k: nat, found: Disk)
    requires k <= |log| && CrashDisk(disk, log, k, found)
    ensures |found| == |disk|
  {
  }

  /**
   A crash at any point of a committing transaction leaves exactly the complete old generation
   or exactly the complete new one, and either way an image from which the next run can start.
   */
  lemma CrashAtomicity(disk: Disk, i0: Img, ns0: Nodes, i1: Img, ns1: Nodes,
                       data: seq<Event>, log: seq<Event>, k: nat, found: Disk)
    requires WellFormed(disk, i0, ns0) && Clean(disk, i0)
    requires CommitLog(disk, i0, i1, data, log) && WellFormed(Apply(disk, data), i1, ns1)
    requires k <= |log| && CrashDisk(disk, log, k, found) && TornDetected(disk, log, k, found)
    ensures (Clean(found, i0) && WellFormed(found, i0, ns0)) || (Clean(found, i1) && WellFormed(found, i1, ns1))
    ensures k <= |data| + 3 ==> Clean(found, i0) && WellFormed(found, i0, ns0)
    ensures k == |log| ==> Clean(found, i1) && WellFormed(found, i1, ns1)
  {
    hide ToBlock, Split, WellFormed, FromBlock, OpenSlot, DataLog, CommitTail, Apply;
    var slot := i1.super.slot;
    TailEvents(disk, i0, i1, data, log);
    LayoutFacts(disk, i1);
    if k <= |data| + 3 {
      forall b: nat | b < |disk| && (!Writable(i0, i1, b) || b == slot) ensures found[b] == disk[b] {
        BeforePublication(disk, i0, i1, data, log, k, found, b);
      }
      OldStands(disk, i0, ns0, i1, found);
    } else if found[slot] == ToBlock(i1.super) {
      NewAfterPublication(disk, i0, i1, ns1, data, log, k, found);
    } else {
      AfterPublication(disk, i0, i1, data, log, k, found, slot);
      OldAfterPublication(disk, i0, ns0, i1, data, log, k, found);
    }
  }

  lemma OldAfterPublication(disk: Disk, i0: Img, ns0: Nodes, i1: Img,
                            data: seq<Event>, log: seq<Event>, k: nat, found: Disk)
    requires WellFormed(disk, i0, ns0) && Clean(disk, i0) && CommitLog(disk, i0, i1, data, log)
    requires |data| + 4 <= k <= |log| && CrashDisk(disk, log, k, found) && TornDetected(disk, log, k, found)
    requires found[i1.super.slot] != ToBlock(i1.super)
    ensures Clean(found, i0) && WellFormed(found, i0, ns0)
  {
    hide ToBlock, Split, WellFormed, FromBlock, OpenSlot, Clean;
    var slot := i1.super.slot;
    TailEvents(disk, i0, i1, data, log);
    forall b: nat | b < |disk| && !Writable(i0, i1, b) ensures found[b] == disk[b] {
      AfterPublication(disk, i0, i1, data, log, k, found, b);
      MetadataCovers(disk, i0, i1, b);
      assert data[..|data|] == data;
      DataKeeps(disk, i0, data, |data|, b);
    }
    if FromBlock(found[slot], slot, |disk| * BLOCK_SIZE).Good? {
      var j :| 0 <= j <= k && found[slot] == Apply(disk, log[..j])[slot];
      SuperVersions(disk, i0, i1, data, log, j);
    }
    OldStands(disk, i0, ns0, i1, found);
  }

  /** A transaction abandoned before its commit leaves the old generation, crash or no crash. */
  lemma AbortAtomicity(disk: Disk, i0: Img, ns0: Nodes, data: seq<Event>, k: nat, found: Disk)
    requires WellFormed(disk, i0, ns0) && Clean(disk, i0)
    requires DataLog(disk, i0, data) && k <= |data| && CrashDisk(disk, data, k, found)
    ensures Clean(found, i0) && WellFormed(found, i0, ns0)
  {
    hide FromBlock, OpenSlot, WellFormed, SuperValid;
    LayoutOf(disk, i0, ns0);
    LayoutFacts(disk, i0);
    forall b: nat | b < |disk| && !IsFree(i0, b) ensures found[b] == disk[b] {
      forall j | 0 <= j < k ensures !Covers(data[j], b) {
        NotCovered(disk, i0, data, j, b);
      }
      ApplyUntouched(disk, data, LastSync(data, k), b);
    }
    OldSurvives(disk, i0, ns0, found);
  }

  lemma LayoutOf(disk: Disk, img: Img, ns: Nodes)
    requires WellFormed(disk, img, ns)
    ensures Layout(disk, img)
  {
  }

  /** Without a crash the commit ends with the new generation on disk. */
  lemma CommitCompletes(disk: Disk, i0: Img, i1: Img, ns1: Nodes, data: seq<Event>, log: seq<Event>)
    requires Attached(disk, i0) && CommitLog(disk, i0, i1, data, log) && WellFormed(Apply(disk, data), i1, ns1)
    ensures Clean(Apply(disk, log), i1) && WellFormed(Apply(disk, log), i1, ns1)
  {
    hide ToBlock, Split, WellFormed, FromBlock, OpenSlot, DataLog, CommitTail, Apply;
    TailEvents(disk, i0, i1, data, log);
    LayoutFacts(disk, i1);
    SyncPoints(disk, i0, i1, data, log, |log|);
    assert log[..|log|] == log;
    var found := Apply(disk, log);
    assert CrashDisk(disk, log, |log|, found);
    AfterPublication(disk, i0, i1, data, log, |log|, found, i1.super.slot);
    NewAfterPublication(disk, i0, i1, ns1, data, log, |log|, found);
  }
}
