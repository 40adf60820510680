/**
 `put`, `mkdir` and `remove`: verify, look up the parent, stage copy-on-write changes, commit.
 */
module ShizukuUpdates {
  import opened Options
  import opened ByteStrings
  import opened ShizukuFormat
  import opened ShizukuDirectory
  import opened ShizukuTree
  import opened ShizukuImage
  import opened ShizukuStaging
  import opened ShizukuCrash
  import opened ShizukuTransaction
  import opened ShizukuFilesystem

  /** What one call did: the trees before and after, and its data writes. */
  datatype Trace = Trace(before: Nodes, after: Nodes, data: seq<Event>)

  /** An image and its device at one moment. */
  datatype Snapshot = Snapshot(disk: Disk, img: Img, log: seq<Event>)

  ghost function Now(image: Image): Snapshot
    reads image, image.device
  {
    Snapshot(image.device.blocks, image.Value(), image.device.log)
  }

  /** The call ended with a committed generation. */
  ghost predicate Succeeds(s0: Snapshot, s1: Snapshot, t: Trace) {
    && WellFormed(s0.disk, s0.img, t.before)
    && CommittedTo(s0.disk, s0.img, s1.img, t.after, t.data, s0.log, s1.log, s1.disk)
  }

  /** The call gave up: the image is the same object state, and only free blocks were written. */
  ghost predicate Fails(s0: Snapshot, s1: Snapshot, t: Trace) {
    && s1.img == s0.img && DataLog(s0.disk, s0.img, t.data)
    && s1.log == s0.log + t.data && s1.disk == Apply(s0.disk, t.data)
  }

  /** Exactly one path changed. */
  ghost predicate PathUpdated(before: Nodes, after: Nodes, path: Path, item: Option<Item>) {
    forall q :: View(after, q) == if q == path then item else View(before, q)
  }

  /** Success changes exactly one path; anything else changes none. */
  ghost predicate Outcome(s0: Snapshot, s1: Snapshot, status: Status, t: Trace, path: Path, item: Option<Item>) {
    if status == Done then Succeeds(s0, s1, t) && PathUpdated(t.before, t.after, path, item)
    else Fails(s0, s1, t)
  }

  predicate ValidPath(path: Path) {
    path != [] && forall i :: 0 <= i < |path| ==> ValidName(path[i])
  }

  function ParentOf(path: Path): Path
    requires path != []
  {
    path[..|path| - 1]
  }

  // ---- Facts about a call that gave up or committed ----

  lemma FailureKeepsAttached(d0: Disk, i0: Img, data: seq<Event>)
    requires Attached(d0, i0) && Layout(d0, i0) && DataLog(d0, i0, data)
    ensures Attached(Apply(d0, data), i0) && Layout(Apply(d0, data), i0)
  {
    hide FromBlock, OpenSlot, SuperValid;
    LayoutFacts(d0, i0);
    assert data[..|data|] == data;
    forall b: nat | b < |d0| && !IsFree(i0, b) ensures Apply(d0, data)[b] == d0[b] {
      DataKeeps(d0, i0, data, |data|, b);
    }
    OpenSlotFrame(d0, Apply(d0, data), i0);
  }

  /** A failed call leaves every well-formed reading of the image in place. */
  lemma FailureKeepsTree(s0: Snapshot, s1: Snapshot, t: Trace, ns: Nodes)
    requires Fails(s0, s1, t) && WellFormed(s0.disk, s0.img, ns)
    ensures WellFormed(s1.disk, s1.img, ns)
  {
    hide WellFormed, SuperValid;
    LayoutOf(s0.disk, s0.img, ns);
    LayoutFacts(s0.disk, s0.img);
    assert t.data[..|t.data|] == t.data;
    forall b: nat | b < |s0.disk| && Allocated(s0.img.super, s0.img.bitmap, b) ensures s1.disk[b] == s0.disk[b] {
      DataKeeps(s0.disk, s0.img, t.data, |t.data|, b);
    }
    WellFormedFrame(s0.disk, s1.disk, s0.img, ns);
  }

  lemma NothingWritten(s: Snapshot, ns: Nodes)
    ensures Fails(s, s, Trace(ns, ns, []))
  {
    assert s.log + [] == s.log;
  }

  lemma CommitIsValid(d0: Disk, i0: Img, i1: Img, ns1: Nodes, data: seq<Event>, log0: seq<Event>, log1: seq<Event>, d1: Disk)
    requires CommittedTo(d0, i0, i1, ns1, data, log0, log1, d1)
    ensures Attached(d1, i1) && Layout(d1, i1)
  {
    hide WellFormed, OpenSlot, CommitTail, Published, Apply;
    LayoutOf(d1, i1, ns1);
  }

  // ---- Parent lookup ----

  method ParentAndName(disk: Disk, img: Img, path: Path, ghost ns: Nodes)
    returns (status: Status, parent: Inode, name: Name, entries: seq<Entry>)
    requires WellFormed(disk, img, ns)
    ensures status in {Done, InvalidPath, NotFound, NotADirectory}
    ensures status == InvalidPath <==> !ValidPath(path)
    ensures status == NotFound || status == NotADirectory ==> path != [] && View(ns, ParentOf(path)) != Some(Directory)
    ensures status == Done ==> ParentIs(ns, path, parent, entries) && name == path[|path| - 1]
  {
    hide WellFormed, Resolve;
    parent, name, entries := Inode(0, 0, 0, 0, 0, 0, 0, 0), [], [];
    if path == [] || exists i :: 0 <= i < |path| && !ValidName(path[i]) {
      return InvalidPath, parent, name, entries;
    }
    LayoutOf(disk, img, ns);
    name := path[|path| - 1];
    status, parent := Lookup(disk, img, path[..|path| - 1], ns);
    if status != Done {
      return;
    }
    status, entries := DirectoryEntries(disk, img, parent, ns);
  }

  ghost predicate ParentIs(ns: Nodes, path: Path, parent: Inode, entries: seq<Entry>) {
    && ValidPath(path) && Resolve(ns, ParentOf(path)) == Some(parent.number)
    && IsDir(ns, parent.number) && parent == InodeFor(parent.number, ns[parent.number])
    && entries == ns[parent.number].entries
  }

  /** Without an entry the path is free, and its parent is a directory. */
  lemma ParentView(ns: Nodes, path: Path, parent: Inode, entries: seq<Entry>)
    requires ParentIs(ns, path, parent, entries)
    ensures View(ns, ParentOf(path)) == Some(Directory)
    ensures Resolve(ns, path) == Find(entries, path[|path| - 1])
    ensures Find(entries, path[|path| - 1]).None? ==> View(ns, path).None?
  {
  }

  ghost predicate EntryIs(ns: Nodes, path: Path, parent: Inode, entry: Entry) {
    && IsDir(ns, parent.number) && ParentIs(ns, path, parent, ns[parent.number].entries)
    && entry in ns[parent.number].entries && entry.name == path[|path| - 1]
  }

  lemma EntryResolves(disk: Disk, img: Img, ns: Nodes, path: Path, parent: Inode, e: Entry)
    requires WellFormed(disk, img, ns) && EntryIs(ns, path, parent, e)
    ensures e.inode in ns && ValidKind(ns[e.inode].kind) && ns[e.inode].kind == e.kind && ns[e.inode].parent == parent.number
    ensures parent.number < INODE_COUNT && e.inode < INODE_COUNT
    ensures Resolve(ns, path) == Some(e.inode)
    ensures View(ns, path) == Some(if e.kind == KIND_DIRECTORY then Directory else File(ns[e.inode].content))
  {
    hide WellFormed, StrictlySorted, NodeOn;
    EntryFacts(disk, img, ns, parent.number, e);
    NodeFacts(disk, img, ns, e.inode);
    NodeFacts(disk, img, ns, parent.number);
    FindIff(ns[parent.number].entries, e.name, e.inode);
  }

  lemma TreeOfWellFormed(disk: Disk, img: Img, ns: Nodes)
    requires WellFormed(disk, img, ns)
    ensures TreeOk(ns) && LinksOk(ns)
  {
    hide LinksOk, TableOn, SpaceOk, Layout;
  }

  // ---- Replacing a file ----

  lemma StoreOverwrites(ns: Nodes, ns': Nodes, n: nat, parent: nat, content: seq<Byte>, generation: nat)
    requires n in ns && ns[n].kind == KIND_FILE && ns[n].parent == parent
    requires Stores(ns, ns', n, KIND_FILE, parent, content, [], generation)
    ensures Overwrites(ns, n, ns') && ns'[n].content == content
  {
    assert ns'.Keys == ns.Keys + {n};
  }

  lemma OverwriteUpdates(ns: Nodes, path: Path, n: nat, ns': Nodes, content: seq<Byte>)
    requires TreeOk(ns) && LinksOk(ns) && Overwrites(ns, n, ns') && ns'[n].content == content && Resolve(ns, path) == Some(n)
    ensures TreeOk(ns') && PathUpdated(ns, ns', path, Some(File(content)))
  {
    hide TreeOk, View, Resolve, LinksOk;
    OverwriteTree(ns, n, ns');
    forall q ensures View(ns', q) == if q == path then Some(File(content)) else View(ns, q) {
      OverwriteView(ns, path, n, ns', q);
    }
  }

  ghost predicate OverwriteStatus(s0: Snapshot, ns: Nodes, path: Path, stream: seq<Byte>, size: nat, status: Status) {
    match status
    case Done => |stream| == size && View(ns, path).Some? && View(ns, path).value.File?
    case IsADirectory => View(ns, path) == Some(Directory)
    case ChainLimit => BlocksFor(size) > MAX_CHAIN_BLOCKS
    case NoSpace => s0.img.super.freeBlocks < BlocksFor(size)
    case SourceChanged => |stream| != size
    case FieldOverflow => s0.img.super.generation + 1 >= Pow256(8)
    case _ => false
  }

  lemma DidNothing(s: Snapshot, ns: Nodes, status: Status, path: Path, item: Option<Item>)
    requires status != Done
    ensures Outcome(s, s, status, Trace(ns, ns, []), path, item)
  {
    NothingWritten(s, ns);
  }

  /** A transaction that is abandoned leaves the image open on its old generation. */
  lemma GaveUp(s0: Snapshot, s1: Snapshot, ns: Nodes, data: seq<Event>, status: Status, path: Path, item: Option<Item>)
    requires status != Done && Attached(s0.disk, s0.img) && Layout(s0.disk, s0.img)
    requires Fails(s0, s1, Trace(ns, ns, data))
    ensures Outcome(s0, s1, status, Trace(ns, ns, data), path, item)
    ensures Attached(s1.disk, s1.img) && Layout(s1.disk, s1.img)
  {
    FailureKeepsAttached(s0.disk, s0.img, data);
  }

  /** Commits a transaction whose staged tree differs from the committed one in exactly one path. */
  method Publish(tx: Transaction, ghost s0: Snapshot, ghost path: Path, ghost item: Option<Item>) returns (ghost t: Trace)
    requires tx.Valid({}) && tx.reserved == 0 && TreeOk(tx.nodes) && tx.generation < Pow256(8) && Attached(tx.d0, tx.i0)
    requires WellFormed(tx.d0, tx.i0, tx.ns0) && s0 == Snapshot(tx.d0, tx.i0, tx.log0)
    requires PathUpdated(tx.ns0, tx.nodes, path, item)
    modifies tx, tx.image, tx.image.device
    ensures tx.image.Valid() && t.before == tx.ns0 && Outcome(s0, Now(tx.image), Done, t, path, item)
  {
    hide WellFormed, TreeOk, LinksOk, PathUpdated, DataLog, Staged, CommittedTo, Layout, Apply, Attached;
    tx.Commit();
    CommitIsValid(tx.d0, tx.i0, tx.image.Value(), tx.nodes, tx.data, tx.log0, tx.image.device.log, tx.image.device.blocks);
    t := Trace(tx.ns0, tx.nodes, tx.data);
  }

  /** Storing a file's new content changes exactly its path. */
  lemma FileOverwritten(d0: Disk, i0: Img, ns: Nodes, ns1: Nodes, path: Path, n: nat, parent: nat, stream: seq<Byte>, generation: nat)
    requires WellFormed(d0, i0, ns) && Resolve(ns, path) == Some(n) && n in ns && ns[n].kind == KIND_FILE && ns[n].parent == parent
    requires Stores(ns, ns1, n, KIND_FILE, parent, stream, [], generation)
    ensures TreeOk(ns1) && PathUpdated(ns, ns1, path, Some(File(stream)))
  {
    hide WellFormed, Resolve, View, TreeOk, LinksOk, PathUpdated, Stores, Overwrites;
    TreeOfWellFormed(d0, i0, ns);
    StoreOverwrites(ns, ns1, n, parent, stream, generation);
    OverwriteUpdates(ns, path, n, ns1, stream);
  }

  /** Writes a file's new content and commits. */
  method ReplaceContent(image: Image, path: Path, inode: Inode, stream: seq<Byte>, size: nat, ghost ns: Nodes)
    returns (status: Status, ghost t: Trace)
    requires image.Valid() && WellFormed(image.device.blocks, image.Value(), ns)
    requires Resolve(ns, path) == Some(inode.number) && inode.number in ns && inode == InodeFor(inode.number, ns[inode.number])
    requires inode.kind == KIND_FILE && inode.number < INODE_COUNT && inode.parent < INODE_COUNT
    modifies image, image.device
    ensures image.Valid()
    ensures status in {Done, ChainLimit, NoSpace, SourceChanged, FieldOverflow}
    ensures status == Done ==> |stream| == size
    ensures status == SourceChanged ==> |stream| != size
    ensures status == ChainLimit ==> BlocksFor(size) > MAX_CHAIN_BLOCKS
    ensures status == NoSpace ==> old(image.super.freeBlocks) < BlocksFor(size)
    ensures status == FieldOverflow ==> old(image.super.generation) + 1 >= Pow256(8)
    ensures t.before == ns && Outcome(old(Now(image)), Now(image), status, t, path, Some(File(stream)))
  {
    hide WellFormed, OpenSlot, Outcome, Stores, Resolve, View, TreeOk, LinksOk, PathUpdated, DataLog, Staged, CommittedTo, Layout,
      Apply, Attached, BlocksFor, Decode;
    var d0, i0 := image.device.blocks, image.Value();
    ghost var s0 := Now(image);
    var tx := new Transaction(image, ns);
    status := tx.WriteInodeContent(inode.number, KIND_FILE, inode.parent, stream, size, Some(inode), []);
    if status != Done {
      GaveUp(s0, Now(image), ns, tx.data, status, path, Some(File(stream)));
      return status, Trace(ns, ns, tx.data);
    }
    FileOverwritten(d0, i0, ns, tx.nodes, path, inode.number, inode.parent, stream, tx.generation);
    t := Publish(tx, s0, path, Some(File(stream)));
  }

  method Overwrite(image: Image, path: Path, entry: Entry, parent: Inode, stream: seq<Byte>, size: nat, ghost ns: Nodes)
    returns (status: Status, ghost t: Trace)
    requires image.Valid() && WellFormed(image.device.blocks, image.Value(), ns) && EntryIs(ns, path, parent, entry)
    modifies image, image.device
    ensures image.Valid()
    ensures OverwriteStatus(old(Now(image)), ns, path, stream, size, status)
    ensures t.before == ns && Outcome(old(Now(image)), Now(image), status, t, path, Some(File(stream)))
  {
    hide WellFormed, OpenSlot, Outcome, Stores, Overwrites, Resolve, View, TreeOk, LinksOk, InodeFromBytes, PathUpdated, DataLog,
      Staged, CommittedTo, Layout, Apply, EntryIs, ParentIs, Attached, BlocksFor, Decode;
    var d0, i0 := image.device.blocks, image.Value();
    ghost var s0 := Now(image);
    EntryResolves(d0, i0, ns, path, parent, entry);
    var inode := ExistingChild(d0, i0, entry, path, parent, ns);
    if inode.kind != KIND_FILE {
      DidNothing(s0, ns, IsADirectory, path, Some(File(stream)));
      return IsADirectory, Trace(ns, ns, []);
    }
    status, t := ReplaceContent(image, path, inode, stream, size, ns);
  }

  method ExistingChild(disk: Disk, img: Img, entry: Entry, path: Path, parent: Inode, ghost ns: Nodes) returns (child: Inode)
    requires WellFormed(disk, img, ns) && EntryIs(ns, path, parent, entry)
    ensures entry.inode in ns && child == InodeFor(entry.inode, ns[entry.inode]) && child.kind == entry.kind
  {
    hide WellFormed, InodeFromBytes;
    LayoutOf(disk, img, ns);
    var ok, inode := ChildInode(disk, img, entry, parent.number, ns);
    child := inode;
  }

  // ---- Creating a file or a directory ----

  lemma ParentFacts(disk: Disk, img: Img, ns: Nodes, path: Path, parent: Inode, entries: seq<Entry>)
    requires WellFormed(disk, img, ns) && ParentIs(ns, path, parent, entries)
    ensures parent.number < INODE_COUNT && parent.parent < INODE_COUNT
    ensures StrictlySorted(entries) && AllValid(entries) && |entries| <= MAX_ENTRIES
  {
    hide WellFormed, NodeOn, Decode, AllValid, StrictlySorted, Resolve;
    LayoutOf(disk, img, ns);
    NodeFacts(disk, img, ns, parent.number);
    NodeFacts(disk, img, ns, ns[parent.number].parent);
    NodeChained(disk, img, parent.number, ns[parent.number]);
    EncodeOfDecode(ns[parent.number].content);
  }

  lemma NameFree(es: seq<Entry>, name: Name)
    requires StrictlySorted(es) && Find(es, name).None?
    ensures !NameIn(es, name)
  {
    forall e | e in es && e.name == name ensures false {
      FindComplete(es, e);
    }
  }

  ghost predicate NewEntry(ns: Nodes, path: Path, parent: Inode, entries: seq<Entry>, e: Entry) {
    && ParentIs(ns, path, parent, entries) && Find(entries, path[|path| - 1]).None?
    && e.name == path[|path| - 1] && ValidKind(e.kind) && 2 <= e.inode < INODE_COUNT && e.inode !in ns
  }

  /** Storing the new inode and then its directory links one entry. */
  lemma StoresLink(ns: Nodes, ns1: Nodes, ns2: Nodes, path: Path, parent: Inode, entries: seq<Entry>, e: Entry,
                   content: seq<Byte>, bytes: seq<Byte>, generation: nat)
    requires NewEntry(ns, path, parent, entries, e) && StrictlySorted(entries) && AllValid(entries)
    requires Stores(ns, ns1, e.inode, e.kind, parent.number, content, [], generation)
    requires Stores(ns1, ns2, parent.number, KIND_DIRECTORY, parent.parent, bytes, Sort(entries + [e]), generation)
    ensures Links(ns, parent.number, e, ns2) && ns2[e.inode].content == content
  {
    hide StrictlySorted, AllValid, Resolve, Find, Sort, Encode;
    assert ValidEntry(e);
    NameFree(entries, e.name);
    EncodeWithNew(entries, e);
    assert ns2.Keys == ns.Keys + {e.inode};
  }

  function ItemOf(kind: nat, content: seq<Byte>): Item {
    if kind == KIND_DIRECTORY then Directory else File(content)
  }

  lemma LinkUpdates(ns: Nodes, path: Path, d: nat, e: Entry, ns': Nodes, content: seq<Byte>)
    requires path != [] && TreeOk(ns) && LinksOk(ns) && Links(ns, d, e, ns') && Resolve(ns, ParentOf(path)) == Some(d)
    requires e.name == path[|path| - 1] && ns'[e.inode].content == content
    ensures TreeOk(ns') && PathUpdated(ns, ns', path, Some(ItemOf(e.kind, content)))
  {
    hide TreeOk, View, Resolve, LinksOk, Find, StrictlySorted;
    assert path == ParentOf(path) + [e.name];
    LinkTree(ns, ParentOf(path), d, e, ns');
    forall q ensures View(ns', q) == if q == path then Some(ItemOf(e.kind, content)) else View(ns, q) {
      LinkView(ns, ParentOf(path), d, e, ns', q);
    }
  }

  /** Not enough inodes, blocks or directory room for one more entry. */
  ghost predicate NoRoom(s0: Snapshot, entries: seq<Entry>, name: Name, kind: nat, size: nat) {
    || s0.img.super.freeInodes == 0
    || s0.img.super.freeBlocks < BlocksFor(size)
    || exists n: nat :: DirectoryTooBig(entries + [Entry(name, n, kind)], s0.img.super.freeBlocks - BlocksFor(size))
  }

  ghost predicate CreateStatus(s0: Snapshot, entries: seq<Entry>, name: Name, kind: nat, stream: seq<Byte>, size: nat,
                               status: Status) {
    match status
    case Done => |stream| == size
    case ChainLimit => BlocksFor(size) > MAX_CHAIN_BLOCKS
    case NoSpace => NoRoom(s0, entries, name, kind, size)
    case SourceChanged => |stream| != size
    case FieldOverflow => s0.img.super.generation + 1 >= Pow256(8)
    case _ => false
  }

  ghost predicate Creatable(ns: Nodes, path: Path, parent: Inode, entries: seq<Entry>, kind: nat, stream: seq<Byte>, size: nat) {
    && ParentIs(ns, path, parent, entries) && Find(entries, path[|path| - 1]).None? && ValidKind(kind)
    && (kind == KIND_DIRECTORY ==> |stream| == size && Decode(stream) == Some([]))
  }

  /** The directory rewrite of a creation can only fail for want of blocks or capacity. */
  lemma RewriteStatus(entries: seq<Entry>, e: Entry)
    requires StrictlySorted(entries) && AllValid(entries) && ValidEntry(e) && Find(entries, e.name).None?
    ensures Encode(entries + [e]).Encoded? || Encode(entries + [e]).TooManyEntries?
    ensures Encode(entries + [e]).Encoded? ==> BlocksFor(|Encode(entries + [e]).bytes|) <= MAX_CHAIN_BLOCKS
  {
    hide StrictlySorted, AllValid, Encode, Find;
    NameFree(entries, e.name);
    EncodeWithNew(entries, e);
    if Encode(entries + [e]).Encoded? {
      EncodedSize(entries + [e]);
    }
  }

  lemma NewEntryOf(disk: Disk, img: Img, ns: Nodes, path: Path, parent: Inode, entries: seq<Entry>,
                   kind: nat, stream: seq<Byte>, size: nat, number: nat)
    requires WellFormed(disk, img, ns) && Creatable(ns, path, parent, entries, kind, stream, size)
    requires 2 <= number < INODE_COUNT && number !in ns
    ensures NewEntry(ns, path, parent, entries, Entry(path[|path| - 1], number, kind))
    ensures StrictlySorted(entries) && AllValid(entries) && ValidEntry(Entry(path[|path| - 1], number, kind))
  {
    hide WellFormed, StrictlySorted, AllValid, Find, Resolve;
    ParentFacts(disk, img, ns, path, parent, entries);
  }

  lemma RootAndNumbers(disk: Disk, img: Img, ns: Nodes)
    requires WellFormed(disk, img, ns)
    ensures Numbered(ns)
  {
    hide WellFormed, TreeOk, DirOk;
    TreeOfWellFormed(disk, img, ns);
    forall n | n in ns ensures 1 <= n < INODE_COUNT {
      assert NodeOk(ns, n);
    }
  }

  /** The two staged nodes link the new entry, which makes exactly its path appear. */
  lemma EntryLinked(d0: Disk, i0: Img, ns: Nodes, ns1: Nodes, ns2: Nodes, path: Path, parent: Inode, entries: seq<Entry>,
                    entry: Entry, stream: seq<Byte>, size: nat, generation: nat)
    requires WellFormed(d0, i0, ns) && Creatable(ns, path, parent, entries, entry.kind, stream, size)
    requires 2 <= entry.inode < INODE_COUNT && entry.inode !in ns && entry.name == path[|path| - 1]
    requires Encode(entries + [entry]).Encoded? && Stores(ns, ns1, entry.inode, entry.kind, parent.number, stream, [], generation)
    requires Stores(ns1, ns2, parent.number, KIND_DIRECTORY, parent.parent, Encode(entries + [entry]).bytes, Sort(entries + [entry]), generation)
    ensures TreeOk(ns2) && PathUpdated(ns, ns2, path, Some(ItemOf(entry.kind, stream)))
  {
    hide WellFormed, Stores, Links, Resolve, View, TreeOk, LinksOk, PathUpdated, Decode, Encode, StrictlySorted, AllValid, Find, Sort,
      ValidEntry;
    assert entry == Entry(entry.name, entry.inode, entry.kind);
    NewEntryOf(d0, i0, ns, path, parent, entries, entry.kind, stream, size, entry.inode);
    TreeOfWellFormed(d0, i0, ns);
    StoresLink(ns, ns1, ns2, path, parent, entries, entry, stream, Encode(entries + [entry]).bytes, generation);
    LinkUpdates(ns, path, parent.number, entry, ns2, stream);
  }

  lemma NoInodeLeft(s0: Snapshot, entries: seq<Entry>, name: Name, kind: nat, stream: seq<Byte>, size: nat)
    requires s0.img.super.freeInodes == 0
    ensures CreateStatus(s0, entries, name, kind, stream, size, NoSpace)
  {
  }

  /** Every way staging can fail is one of the causes of a failed creation. */
  lemma CreationFails(s0: Snapshot, entries: seq<Entry>, entry: Entry, stream: seq<Byte>, size: nat, status: Status)
    requires StrictlySorted(entries) && AllValid(entries) && ValidEntry(entry) && Find(entries, entry.name).None?
    requires StagingCause(s0.img.super.freeBlocks, s0.img.super.generation + 1, entries + [entry], stream, size, status)
    ensures CreateStatus(s0, entries, entry.name, entry.kind, stream, size, status)
  {
    hide StrictlySorted, AllValid, Encode, Find, ValidEntry, BlocksFor, DirectoryTooBig;
    RewriteStatus(entries, entry);
    assert entry == Entry(entry.name, entry.inode, entry.kind);
  }

  /** Allocates an inode, stages the new entry and commits; `entry.inode` is 0 if no inode was free. */
  method LinkEntry(image: Image, path: Path, parent: Inode, entries: seq<Entry>, kind: nat,
                   stream: seq<Byte>, size: nat, ghost ns: Nodes)
    returns (status: Status, entry: Entry, ghost t: Trace)
    requires image.Valid() && WellFormed(image.device.blocks, image.Value(), ns)
    requires Creatable(ns, path, parent, entries, kind, stream, size) && path != []
    requires ValidKind(kind) && (kind == KIND_DIRECTORY ==> |stream| == size && Decode(stream) == Some([]))
    requires parent.number < INODE_COUNT && parent.parent < INODE_COUNT
    requires parent.number in ns && parent == InodeFor(parent.number, ns[parent.number])
    requires Numbered(ns)
    modifies image, image.device
    ensures image.Valid() && entry.name == path[|path| - 1] && entry.kind == kind
    ensures entry.inode == 0 ==> status == NoSpace && old(image.super.freeInodes) == 0
    ensures entry.inode != 0 ==> 2 <= entry.inode < INODE_COUNT && entry.inode !in ns
    ensures status == Done ==> |stream| == size
    ensures entry.inode != 0 && status != Done ==>
      StagingCause(old(image.super.freeBlocks), old(image.super.generation) + 1, entries + [entry], stream, size, status)
    ensures t.before == ns && Outcome(old(Now(image)), Now(image), status, t, path, Some(ItemOf(kind, stream)))
  {
    hide WellFormed, Outcome, Stores, TreeOk, PathUpdated, DataLog, Staged, CommittedTo, Layout, Apply, Decode, Encode, Sort, Attached,
      DirectoryTooBig, BlocksFor, Creatable, ItemOf, ValidKind, Numbered, StagingCause;
    var d0, i0 := image.device.blocks, image.Value();
    ghost var s0 := Now(image);
    var tx := new Transaction(image, ns);
    ghost var ns1;
    status, entry, ns1 := tx.AddEntry(path[|path| - 1], kind, stream, size, parent, entries);
    if status != Done {
      GaveUp(s0, Now(image), ns, tx.data, status, path, Some(ItemOf(kind, stream)));
      return status, entry, Trace(ns, ns, tx.data);
    }
    EntryLinked(d0, i0, ns, ns1, tx.nodes, path, parent, entries, entry, stream, size, tx.generation);
    t := Publish(tx, s0, path, Some(ItemOf(kind, stream)));
  }

  method CreateEntry(image: Image, path: Path, parent: Inode, entries: seq<Entry>, kind: nat,
                     stream: seq<Byte>, size: nat, ghost ns: Nodes)
    returns (status: Status, ghost t: Trace)
    requires image.Valid() && WellFormed(image.device.blocks, image.Value(), ns)
    requires Creatable(ns, path, parent, entries, kind, stream, size)
    modifies image, image.device
    ensures image.Valid()
    ensures CreateStatus(old(Now(image)), entries, path[|path| - 1], kind, stream, size, status)
    ensures t.before == ns && Outcome(old(Now(image)), Now(image), status, t, path, Some(ItemOf(kind, stream)))
  {
    hide WellFormed, OpenSlot, Outcome, Stores, Links, Resolve, View, TreeOk, LinksOk, InodeFromBytes, PathUpdated, DataLog,
      Staged, CommittedTo, Layout, Apply, Decode, Encode, StrictlySorted, AllValid, Find, Sort, ValidEntry, Attached, NoRoom, DirectoryTooBig, BlocksFor;
    var d0, i0, name := image.device.blocks, image.Value(), path[|path| - 1];
    ghost var s0 := Now(image);
    ParentFacts(d0, i0, ns, path, parent, entries);
    RootAndNumbers(d0, i0, ns);
    var entry;
    status, entry, t := LinkEntry(image, path, parent, entries, kind, stream, size, ns);
    if status != Done {
      if entry.inode == 0 {
        NoInodeLeft(s0, entries, name, kind, stream, size);
      } else {
        NewEntryOf(d0, i0, ns, path, parent, entries, kind, stream, size, entry.inode);
        CreationFails(s0, entries, entry, stream, size, status);
      }
    }
  }

  // ---- Removing a file or an empty directory ----

  ghost predicate HasChild(ns: Nodes, path: Path) {
    exists a :: View(ns, path + [a]).Some?
  }

  /** A directory's entry list is empty exactly when no path lies directly below it. */
  lemma ChildIff(ns: Nodes, path: Path, n: nat)
    requires LinksOk(ns) && Resolve(ns, path) == Some(n) && n in ns
    ensures HasChild(ns, path) <==> IsDir(ns, n) && ns[n].entries != []
  {
    forall a ensures (path + [a])[..|path|] == path {
    }
    if IsDir(ns, n) && ns[n].entries != [] {
      var e := ns[n].entries[0];
      assert DirOk(ns, n) && e in ns[n].entries;
      assert Resolve(ns, path + [e.name]) == Some(e.inode);
      assert View(ns, path + [e.name]).Some?;
    }
  }

  lemma NotOwnChild(ns: Nodes, path: Path, d: nat, n: nat)
    requires LinksOk(ns) && path != [] && Resolve(ns, ParentOf(path)) == Some(d) && Resolve(ns, path) == Some(n)
    ensures n != d
  {
    hide LinksOk, Resolve;
    if n == d {
      PathsAreUnique(ns, path, ParentOf(path));
    }
  }

  /** Storing the shorter directory and freeing the inode unlinks one entry. */
  lemma StoresUnlink(ns: Nodes, ns1: Nodes, ns2: Nodes, parent: Inode, e: Entry, bytes: seq<Byte>, generation: nat)
    requires IsDir(ns, parent.number) && parent == InodeFor(parent.number, ns[parent.number])
    requires e in ns[parent.number].entries && e.inode in ns && e.inode != parent.number
    requires IsDir(ns, e.inode) ==> ns[e.inode].entries == []
    requires StrictlySorted(Without(ns[parent.number].entries, e.name))
    requires Stores(ns, ns1, parent.number, KIND_DIRECTORY, parent.parent, bytes,
                    Without(ns[parent.number].entries, e.name), generation)
    requires ns2 == ns1 - {e.inode}
    ensures Unlinks(ns, parent.number, e, ns2)
  {
    hide StrictlySorted, Without;
    WithoutIs(ns[parent.number].entries, e.name);
    assert ns1.Keys == ns.Keys && ns2.Keys == ns1.Keys - {e.inode};
  }

  lemma UnlinkUpdates(ns: Nodes, path: Path, d: nat, e: Entry, ns': Nodes)
    requires path != [] && TreeOk(ns) && LinksOk(ns) && Unlinks(ns, d, e, ns') && Resolve(ns, ParentOf(path)) == Some(d)
    requires e.name == path[|path| - 1]
    ensures TreeOk(ns') && PathUpdated(ns, ns', path, None)
  {
    hide TreeOk, View, Resolve, LinksOk, StrictlySorted;
    assert path == ParentOf(path) + [e.name];
    UnlinkTree(ns, ParentOf(path), d, e, ns');
    forall q ensures View(ns', q) == if q == path then None else View(ns, q) {
      UnlinkView(ns, ParentOf(path), d, e, ns', q);
    }
  }

  ghost predicate RemoveStatus(s0: Snapshot, ns: Nodes, path: Path, entries: seq<Entry>, status: Status)
    requires path != []
  {
    match status
    case Done => View(ns, path).Some? && !HasChild(ns, path)
    case NotEmpty => View(ns, path) == Some(Directory) && HasChild(ns, path)
    case NoSpace => DirectoryTooBig(Without(entries, path[|path| - 1]), s0.img.super.freeBlocks)
    case FieldOverflow => s0.img.super.generation + 1 >= Pow256(8)
    case _ => false
  }

  lemma ShrinkStatus(entries: seq<Entry>, name: Name)
    requires StrictlySorted(entries) && AllValid(entries) && |entries| <= MAX_ENTRIES
    ensures var kept := Without(entries, name);
      && Sort(kept) == kept && StrictlySorted(kept)
      && Encode(kept).Encoded? && BlocksFor(|Encode(kept).bytes|) <= MAX_CHAIN_BLOCKS
  {
    hide StrictlySorted, AllValid, Encode, Without, Sort;
    EncodeWithout(entries, name);
    EncodedSize(Without(entries, name));
  }

  /** Everything the removal needs to know about its target before it starts. */
  lemma TargetFacts(disk: Disk, img: Img, ns: Nodes, path: Path, parent: Inode, e: Entry)
    requires WellFormed(disk, img, ns) && EntryIs(ns, path, parent, e)
    ensures e.inode in ns && e.inode < INODE_COUNT && e.inode != parent.number && ns[e.inode].kind == e.kind
    ensures View(ns, path) == Some(ItemOf(e.kind, ns[e.inode].content))
    ensures HasChild(ns, path) <==> IsDir(ns, e.inode) && ns[e.inode].entries != []
  {
    hide WellFormed, Resolve, LinksOk, HasChild, View, TreeOk;
    TreeOfWellFormed(disk, img, ns);
    EntryResolves(disk, img, ns, path, parent, e);
    NotOwnChild(ns, path, parent.number, e.inode);
    ChildIff(ns, path, e.inode);
  }

  lemma EntryParent(ns: Nodes, path: Path, parent: Inode, e: Entry)
    requires EntryIs(ns, path, parent, e)
    ensures IsDir(ns, parent.number) && ParentIs(ns, path, parent, ns[parent.number].entries) && path != []
    ensures Resolve(ns, ParentOf(path)) == Some(parent.number) && e.name == path[|path| - 1]
    ensures parent == InodeFor(parent.number, ns[parent.number]) && e in ns[parent.number].entries
  {
    hide Resolve;
  }

  /** The inode to remove and, if it is a directory, what lies below it. */
  method RemovalTarget(disk: Disk, img: Img, entry: Entry, path: Path, parent: Inode, ghost ns: Nodes)
    returns (inode: Inode, below: seq<Entry>)
    requires WellFormed(disk, img, ns) && EntryIs(ns, path, parent, entry)
    ensures entry.inode in ns && inode == InodeFor(entry.inode, ns[entry.inode])
    ensures below != [] <==> HasChild(ns, path)
    ensures HasChild(ns, path) ==> View(ns, path) == Some(Directory)
    ensures below == [] ==> (IsDir(ns, entry.inode) ==> ns[entry.inode].entries == [])
  {
    hide WellFormed, InodeFromBytes, HasChild, View, EntryIs;
    LayoutOf(disk, img, ns);
    TargetFacts(disk, img, ns, path, parent, entry);
    inode := ExistingChild(disk, img, entry, path, parent, ns);
    below := [];
    if inode.kind == KIND_DIRECTORY {
      var read;
      read, below := DirectoryEntries(disk, img, inode, ns);
    }
  }

  /** Dropping the entry and releasing its inode makes exactly its path disappear. */
  lemma EntryUnlinked(d0: Disk, i0: Img, ns: Nodes, ns1: Nodes, ns2: Nodes, path: Path, parent: Inode, entries: seq<Entry>,
                      entry: Entry, generation: nat)
    requires WellFormed(d0, i0, ns) && EntryIs(ns, path, parent, entry) && entries == ns[parent.number].entries
    requires IsDir(ns, entry.inode) ==> ns[entry.inode].entries == []
    requires Encode(Without(entries, entry.name)).Encoded?
    requires Stores(ns, ns1, parent.number, KIND_DIRECTORY, parent.parent, Encode(Without(entries, entry.name)).bytes,
                    Sort(Without(entries, entry.name)), generation)
    requires ns2 == ns1 - {entry.inode}
    ensures TreeOk(ns2) && PathUpdated(ns, ns2, path, None)
  {
    hide WellFormed, Stores, Unlinks, Resolve, View, TreeOk, LinksOk, PathUpdated, Encode, Without, StrictlySorted, AllValid, HasChild,
      Sort;
    EntryParent(ns, path, parent, entry);
    TargetFacts(d0, i0, ns, path, parent, entry);
    ParentFacts(d0, i0, ns, path, parent, entries);
    ShrinkStatus(entries, entry.name);
    TreeOfWellFormed(d0, i0, ns);
    StoresUnlink(ns, ns1, ns2, parent, entry, Encode(Without(entries, entry.name)).bytes, generation);
    UnlinkUpdates(ns, path, parent.number, entry, ns2);
  }

  /** Removes an entry whose target may go, and commits. */
  method RemoveTarget(image: Image, path: Path, entry: Entry, parent: Inode, entries: seq<Entry>, inode: Inode, ghost ns: Nodes)
    returns (status: Status, ghost t: Trace)
    requires image.Valid() && WellFormed(image.device.blocks, image.Value(), ns)
    requires EntryIs(ns, path, parent, entry) && entries == ns[parent.number].entries
    requires parent.number < INODE_COUNT && parent.parent < INODE_COUNT
    requires parent.number in ns && parent == InodeFor(parent.number, ns[parent.number]) && entry.inode != parent.number
    requires entry.inode in ns && inode == InodeFor(entry.inode, ns[entry.inode]) && entry.inode < INODE_COUNT
    requires IsDir(ns, entry.inode) ==> ns[entry.inode].entries == []
    modifies image, image.device
    ensures image.Valid()
    ensures status in {Done, ChainLimit, NoSpace, FieldOverflow, InvalidPath}
    ensures var kept := Encode(Without(entries, entry.name));
      && (status == InvalidPath ==> kept.InvalidName? || kept.InvalidEntry?)
      && (status == ChainLimit ==> kept.Encoded? && BlocksFor(|kept.bytes|) > MAX_CHAIN_BLOCKS)
    ensures status == NoSpace ==> DirectoryTooBig(Without(entries, entry.name), old(image.super.freeBlocks))
    ensures status == FieldOverflow ==> old(image.super.generation) + 1 >= Pow256(8)
    ensures t.before == ns && Outcome(old(Now(image)), Now(image), status, t, path, None)
  {
    hide WellFormed, OpenSlot, Outcome, Stores, View, TreeOk, LinksOk, PathUpdated, DataLog, Staged, CommittedTo, Layout, Apply, EntryIs,
      Encode, Without, Sort, Attached, DirectoryTooBig, BlocksFor;
    var d0, i0 := image.device.blocks, image.Value();
    ghost var s0 := Now(image);
    var tx := new Transaction(image, ns);
    ghost var ns1;
    status, ns1 := tx.StageRemoval(parent, Without(entries, entry.name), inode);
    if status != Done {
      GaveUp(s0, Now(image), ns, tx.data, status, path, None);
      return status, Trace(ns, ns, tx.data);
    }
    EntryUnlinked(d0, i0, ns, ns1, tx.nodes, path, parent, entries, entry, tx.generation);
    t := Publish(tx, s0, path, None);
  }

  method RemoveEntry(image: Image, path: Path, entry: Entry, parent: Inode, entries: seq<Entry>, ghost ns: Nodes)
    returns (status: Status, ghost t: Trace)
    requires image.Valid() && WellFormed(image.device.blocks, image.Value(), ns)
    requires EntryIs(ns, path, parent, entry) && entries == ns[parent.number].entries
    modifies image, image.device
    ensures image.Valid() && path != []
    ensures RemoveStatus(old(Now(image)), ns, path, entries, status)
    ensures t.before == ns && Outcome(old(Now(image)), Now(image), status, t, path, None)
  {
    hide WellFormed, OpenSlot, Outcome, Stores, Unlinks, Resolve, View, TreeOk, LinksOk, InodeFromBytes, PathUpdated, DataLog,
      Staged, CommittedTo, Layout, Apply, EntryIs, ParentIs, Encode, Without, StrictlySorted, AllValid, HasChild, Sort, Attached, DirectoryTooBig, BlocksFor, DirOk;
    var d0, i0 := image.device.blocks, image.Value();
    ghost var s0 := Now(image);
    EntryParent(ns, path, parent, entry);
    TargetFacts(d0, i0, ns, path, parent, entry);
    ParentFacts(d0, i0, ns, path, parent, entries);
    ShrinkStatus(entries, entry.name);
    var inode, below := RemovalTarget(d0, i0, entry, path, parent, ns);
    if below != [] {
      DidNothing(s0, ns, NotEmpty, path, None);
      return NotEmpty, Trace(ns, ns, []);
    }
    status, t := RemoveTarget(image, path, entry, parent, entries, inode, ns);
  }

}
