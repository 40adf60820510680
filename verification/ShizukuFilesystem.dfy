/**
 Reading an opened image: file contents, directories and lookup, stated on the map from paths to
 files and directories.
 */
module ShizukuFilesystem {
  import opened Options
  import opened ByteStrings
  import opened ShizukuFormat
  import opened ShizukuDirectory
  import opened ShizukuTree
  import opened ShizukuImage
  import opened ShizukuCrash
  import opened ShizukuVerify
  import opened ShizukuTransaction

  // ---- Lookup ----

  lemma NodeFacts(disk: Disk, img: Img, ns: Nodes, n: nat)
    requires WellFormed(disk, img, ns) && n in ns
    ensures n < INODE_COUNT && NodeOk(ns, n) && NodeOn(disk, img, n, ns[n])
  {
    hide SpaceOk, AllReachable, NodeOn;
    assert NodeOk(ns, n);
    assert NodeOn(disk, img, n, ns[n]);
  }

  /** The image says that `inode` is what the node map holds under its number. */
  ghost predicate Describes(disk: Disk, img: Img, ns: Nodes, inode: Inode) {
    WellFormed(disk, img, ns) ==> inode.number in ns && inode == InodeFor(inode.number, ns[inode.number])
  }

  method ReadContent(disk: Disk, img: Img, inode: Inode, ghost ns: Nodes) returns (ok: bool, content: seq<Byte>)
    requires Layout(disk, img) && inode.number < INODE_COUNT && Describes(disk, img, ns, inode)
    ensures WellFormed(disk, img, ns) ==> ok && content == ns[inode.number].content
  {
    hide WellFormed, Readable, Chained;
    var blocks;
    ok, blocks, content := ContentChunks(disk, img.super, img.bitmap, inode);
    if WellFormed(disk, img, ns) {
      var n := inode.number;
      NodeFacts(disk, img, ns, n);
      NodeReadable(disk, img, n, ns[n]);
      NodeChained(disk, img, n, ns[n]);
      ChainUnique(disk, img.super, img.bitmap, inode, blocks, content, ns[n].blocks, ns[n].content);
    }
  }

  lemma NodeChained(disk: Disk, img: Img, n: nat, nd: Node)
    requires |img.inodes| == TABLE_SIZE && n < INODE_COUNT && NodeOn(disk, img, n, nd)
    ensures Chained(disk, img.super, img.bitmap, InodeFor(n, nd), nd.blocks, nd.content)
    ensures NodeDecodes(nd) && InodeAt(img.inodes, n) == Used(InodeFor(n, nd))
  {
    hide InodeAt, Chained, Decode;
  }

  method DirectoryEntries(disk: Disk, img: Img, inode: Inode, ghost ns: Nodes)
    returns (status: Status, entries: seq<Entry>)
    requires Layout(disk, img) && inode.number < INODE_COUNT && Describes(disk, img, ns, inode)
    ensures status in {Done, NotADirectory, CorruptImage}
    ensures status == NotADirectory <==> inode.kind != KIND_DIRECTORY
    ensures WellFormed(disk, img, ns) && status != NotADirectory ==>
      status == Done && IsDir(ns, inode.number) && entries == ns[inode.number].entries
  {
    hide WellFormed, Decode, NodeOn;
    entries := [];
    if inode.kind != KIND_DIRECTORY {
      return NotADirectory, [];
    }
    var ok, content := ReadContent(disk, img, inode, ns);
    if WellFormed(disk, img, ns) {
      NodeFacts(disk, img, ns, inode.number);
      NodeChained(disk, img, inode.number, ns[inode.number]);
    }
    if !ok {
      return CorruptImage, [];
    }
    var decoded := DecodeDirectory(content);
    if decoded.None? {
      return CorruptImage, [];
    }
    return Done, decoded.value;
  }

  method FindEntry(entries: seq<Entry>, name: Name) returns (found: bool, entry: Entry)
    ensures found <==> exists e :: e in entries && e.name == name
    ensures found ==> entry in entries && entry.name == name && Find(entries, name) == Some(entry.inode)
    ensures !found ==> Find(entries, name).None?
  {
    entry := Entry([], 0, 0);
    for k := 0 to |entries|
      invariant forall i :: 0 <= i < k ==> entries[i].name != name
      invariant Find(entries, name) == Find(entries[k..], name)
    {
      if entries[k].name == name {
        return true, entries[k];
      }
      assert entries[k..][1..] == entries[k + 1..];
    }
    return false, entry;
  }

  /** One step of a lookup: the child inode named by a directory entry. */
  method ChildInode(disk: Disk, img: Img, entry: Entry, d: nat, ghost ns: Nodes) returns (ok: bool, child: Inode)
    requires Layout(disk, img)
    requires WellFormed(disk, img, ns) ==> IsDir(ns, d) && entry in ns[d].entries
    ensures ok ==> child.number == entry.inode < INODE_COUNT && child.kind == entry.kind
    ensures WellFormed(disk, img, ns) ==>
      ok && entry.inode in ns && child == InodeFor(entry.inode, ns[entry.inode]) && child.kind == entry.kind
  {
    hide WellFormed, InodeFromBytes;
    child := Inode(0, 0, 0, 0, 0, 0, 0, 0);
    if WellFormed(disk, img, ns) {
      EntryFacts(disk, img, ns, d, entry);
    }
    if entry.inode >= INODE_COUNT {
      return false, child;
    }
    match InodeAt(img.inodes, entry.inode)
    case Used(inode) =>
      InodeAcceptsOnlyWritten(Slot(img.inodes, entry.inode), entry.inode);
      return inode.kind == entry.kind, inode;
    case _ =>
      return false, child;
  }

  lemma EntryFacts(disk: Disk, img: Img, ns: Nodes, d: nat, e: Entry)
    requires WellFormed(disk, img, ns) && IsDir(ns, d) && e in ns[d].entries
    ensures e.inode in ns && e.inode < INODE_COUNT && ns[e.inode].kind == e.kind && ns[e.inode].parent == d
    ensures InodeAt(img.inodes, e.inode) == Used(InodeFor(e.inode, ns[e.inode]))
    ensures StrictlySorted(ns[d].entries)
  {
    hide WellFormed, NodeOn, InodeAt, StrictlySorted;
    WellFormedLinks(disk, img, ns);
    LayoutOf(disk, img, ns);
    assert DirOk(ns, d);
    NodeFacts(disk, img, ns, e.inode);
    NodeChained(disk, img, e.inode, ns[e.inode]);
  }

  lemma RootFacts(disk: Disk, img: Img, ns: Nodes)
    requires WellFormed(disk, img, ns)
    ensures IsDir(ns, ROOT_INODE) && InodeAt(img.inodes, ROOT_INODE) == Used(InodeFor(ROOT_INODE, ns[ROOT_INODE]))
  {
    hide WellFormed, NodeOn, InodeAt;
    WellFormedLinks(disk, img, ns);
    LayoutOf(disk, img, ns);
    NodeFacts(disk, img, ns, ROOT_INODE);
    NodeChained(disk, img, ROOT_INODE, ns[ROOT_INODE]);
  }

  /** One component of a lookup. */
  method LookupStep(disk: Disk, img: Img, inode: Inode, name: Name, ghost ns: Nodes) returns (status: Status, child: Inode)
    requires Layout(disk, img) && inode.number < INODE_COUNT && Describes(disk, img, ns, inode)
    ensures status in {Done, NotFound, NotADirectory, CorruptImage}
    ensures status == Done ==> child.number < INODE_COUNT && Describes(disk, img, ns, child)
    ensures WellFormed(disk, img, ns) ==> status != CorruptImage && inode.number in ns
    ensures WellFormed(disk, img, ns) && status == Done ==>
      IsDir(ns, inode.number) && Find(ns[inode.number].entries, name) == Some(child.number)
    ensures WellFormed(disk, img, ns) && status != Done ==>
      !IsDir(ns, inode.number) || Find(ns[inode.number].entries, name).None?
  {
    hide WellFormed, InodeFromBytes, Find;
    child := inode;
    var entries;
    status, entries := DirectoryEntries(disk, img, inode, ns);
    if status != Done {
      return;
    }
    var found, entry := FindEntry(entries, name);
    if !found {
      return NotFound, child;
    }
    var ok;
    ok, child := ChildInode(disk, img, entry, inode.number, ns);
    status := if ok then Done else CorruptImage;
  }

  /** The walk stands at the inode that the first `k` names resolve to. */
  ghost predicate WalkedTo(disk: Disk, img: Img, ns: Nodes, path: Path, k: nat, inode: Inode)
    requires k <= |path|
  {
    WellFormed(disk, img, ns) ==>
      Resolve(ns, path[..k]) == Some(inode.number) && inode.number in ns && inode == InodeFor(inode.number, ns[inode.number])
  }

  lemma WalkStarts(disk: Disk, img: Img, ns: Nodes, path: Path)
    requires Layout(disk, img)
    ensures |img.inodes| == TABLE_SIZE
    ensures var slot := InodeAt(img.inodes, ROOT_INODE);
      && (slot.Used? ==> slot.inode.number == ROOT_INODE && WalkedTo(disk, img, ns, path, 0, slot.inode))
      && (WellFormed(disk, img, ns) ==> slot.Used?)
  {
    hide WellFormed, InodeFromBytes, Layout, TreeOk, Slot;
    TableSize(disk, img);
    RootResolves(ns);
    assert path[..0] == [];
    var slot := InodeAt(img.inodes, ROOT_INODE);
    if slot.Used? {
      InodeAcceptsOnlyWritten(Slot(img.inodes, ROOT_INODE), ROOT_INODE);
    }
    if WellFormed(disk, img, ns) {
      RootFacts(disk, img, ns);
    }
  }

  lemma WalkStep(disk: Disk, img: Img, ns: Nodes, path: Path, k: nat, inode: Inode, status: Status, child: Inode)
    requires k < |path| && WalkedTo(disk, img, ns, path, k, inode)
    requires status == Done ==> Describes(disk, img, ns, child)
    requires WellFormed(disk, img, ns) ==> status != CorruptImage
    requires WellFormed(disk, img, ns) && status == Done ==>
      IsDir(ns, inode.number) && Find(ns[inode.number].entries, path[k]) == Some(child.number)
    requires WellFormed(disk, img, ns) && status != Done ==>
      inode.number in ns && (!IsDir(ns, inode.number) || Find(ns[inode.number].entries, path[k]).None?)
    ensures status == Done ==> WalkedTo(disk, img, ns, path, k + 1, child)
    ensures status != Done && WellFormed(disk, img, ns) ==> Resolve(ns, path).None?
  {
    hide WellFormed, Find, Resolve, InodeFor;
    if WellFormed(disk, img, ns) {
      ResolveStep(ns, path, k, inode.number);
      if status != Done {
        PrefixFails(ns, path, k + 1);
      }
    }
  }

  /** Walks down from the root, one name at a time. */
  method Lookup(disk: Disk, img: Img, path: Path, ghost ns: Nodes) returns (status: Status, inode: Inode)
    requires Layout(disk, img)
    ensures status in {Done, NotFound, NotADirectory, CorruptImage}
    ensures status == Done ==> inode.number < INODE_COUNT
    ensures WellFormed(disk, img, ns) && status == Done ==>
      Resolve(ns, path) == Some(inode.number) && inode.number in ns && inode == InodeFor(inode.number, ns[inode.number])
    ensures WellFormed(disk, img, ns) && status != Done ==> status != CorruptImage && Resolve(ns, path).None?
  {
    hide WellFormed, Find, Layout, Resolve, InodeAt, InodeFor, IsDir;
    inode := Inode(0, 0, 0, 0, 0, 0, 0, 0);
    WalkStarts(disk, img, ns, path);
    var slot := InodeAt(img.inodes, ROOT_INODE);
    if !slot.Used? {
      return CorruptImage, inode;
    }
    inode := slot.inode;
    for k := 0 to |path|
      invariant inode.number < INODE_COUNT && WalkedTo(disk, img, ns, path, k, inode)
    {
      var child;
      status, child := LookupStep(disk, img, inode, path[k], ns);
      WalkStep(disk, img, ns, path, k, inode, status, child);
      if status != Done {
        return;
      }
      inode := child;
    }
    assert path[..|path|] == path;
    status := Done;
  }

  lemma TableSize(disk: Disk, img: Img)
    requires Layout(disk, img)
    ensures |img.inodes| == TABLE_SIZE
  {
  }

  lemma RootResolves(ns: Nodes)
    ensures Resolve(ns, []) == Some(ROOT_INODE)
  {
  }

  lemma ResolveStep(ns: Nodes, path: Path, k: nat, d: nat)
    requires k < |path| && Resolve(ns, path[..k]) == Some(d)
    ensures Resolve(ns, path[..k + 1]) == if IsDir(ns, d) then Find(ns[d].entries, path[k]) else None
  {
    hide Find;
    assert path[..k + 1][..k] == path[..k];
  }

  lemma {:induction false} PrefixFails(ns: Nodes, path: Path, k: nat)
    requires k <= |path| && Resolve(ns, path[..k]).None?
    ensures Resolve(ns, path).None?
    decreases |path| - k
  {
    if k < |path| {
      assert path[..k + 1][..k] == path[..k];
      PrefixFails(ns, path, k + 1);
    } else {
      assert path[..k] == path;
    }
  }

  predicate SmallFile(item: Option<Item>) {
    item.Some? && item.value.File? && |item.value.bytes| <= MAX_INLINE_READ_BYTES
  }

  /** Reading a file returns exactly the bytes the path map holds, within the in-memory limit. */
  method ReadFile(image: Image, path: Path, ghost ns: Nodes) returns (status: Status, bytes: seq<Byte>)
    requires image.Valid()
    ensures status == Done && WellFormed(image.device.blocks, image.Value(), ns) ==> View(ns, path) == Some(File(bytes))
    ensures WellFormed(image.device.blocks, image.Value(), ns) && SmallFile(View(ns, path)) ==> status == Done
  {
    hide WellFormed, Resolve;
    bytes := [];
    var inode;
    status, inode := Lookup(image.device.blocks, image.Value(), path, ns);
    if status != Done {
      return;
    }
    if WellFormed(image.device.blocks, image.Value(), ns) {
      NodeFacts(image.device.blocks, image.Value(), ns, inode.number);
    }
    if inode.kind != KIND_FILE {
      return IsADirectory, [];
    }
    if inode.size > MAX_INLINE_READ_BYTES {
      return ChainLimit, [];
    }
    var ok;
    ok, bytes := ReadContent(image.device.blocks, image.Value(), inode, ns);
    status := if ok then Done else CorruptImage;
  }
}
