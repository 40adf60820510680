/**
 The public updates of an image. Each returns a status whose cause is stated, and changes
 the map from paths to files and directories at its own path or not at all.
 */
module ShizukuOperations {
  import opened Options
  import opened ByteStrings
  import opened ShizukuFormat
  import opened ShizukuDirectory
  import opened ShizukuTree
  import opened ShizukuImage
  import opened ShizukuCrash
  import opened ShizukuVerify
  import opened ShizukuTransaction
  import opened ShizukuFilesystem
  import opened ShizukuUpdates

  /** The operation was allowed and found a well-formed image. */
  ghost predicate Reached(s0: Snapshot, writable: bool, ns: Nodes) {
    writable && WellFormed(s0.disk, s0.img, ns)
  }

  ghost predicate NoParent(ns: Nodes, path: Path) {
    path != [] && View(ns, ParentOf(path)) != Some(Directory)
  }

  ghost predicate HasParent(ns: Nodes, path: Path) {
    ValidPath(path) && View(ns, ParentOf(path)) == Some(Directory)
  }

  /** The entries of the directory that holds the path. */
  ghost function Siblings(ns: Nodes, path: Path): seq<Entry>
    requires path != []
  {
    var d := Resolve(ns, ParentOf(path));
    if d.Some? && d.value in ns then ns[d.value].entries else []
  }

  // ---- put ----

  ghost predicate PutCause(s0: Snapshot, ns: Nodes, path: Path, stream: seq<Byte>, size: int, status: Status) {
    && 0 <= size && BlocksFor(size) <= MAX_CHAIN_BLOCKS
    && match status
       case Done => HasParent(ns, path) && View(ns, path) != Some(Directory) && |stream| == size
       case InvalidPath => !ValidPath(path)
       case NotFound => NoParent(ns, path)
       case NotADirectory => NoParent(ns, path)
       case IsADirectory => View(ns, path) == Some(Directory)
       case NoSpace =>
         && HasParent(ns, path)
         && if View(ns, path).Some? then s0.img.super.freeBlocks < BlocksFor(size)
            else NoRoom(s0, Siblings(ns, path), path[|path| - 1], KIND_FILE, size)
       case SourceChanged => HasParent(ns, path) && |stream| != size
       case FieldOverflow => s0.img.super.generation + 1 >= Pow256(8)
       case _ => false
  }

  ghost predicate PutStatus(s0: Snapshot, writable: bool, ns: Nodes, path: Path, stream: seq<Byte>, size: int, status: Status) {
    match status
    case ReadOnly => !writable
    case InvalidLength => writable && size < 0
    case ChainLimit => writable && size >= 0 && BlocksFor(size) > MAX_CHAIN_BLOCKS
    case CorruptImage => writable && Unacceptable(s0.disk, s0.img)
    case _ => Reached(s0, writable, ns) && PutCause(s0, ns, path, stream, size, status)
  }

  lemma SiblingsAre(ns: Nodes, path: Path, parent: Inode, entries: seq<Entry>)
    requires ParentIs(ns, path, parent, entries)
    ensures HasParent(ns, path) && Siblings(ns, path) == entries
    ensures Find(entries, path[|path| - 1]).None? ==> View(ns, path).None?
  {
    hide Resolve;
    ParentView(ns, path, parent, entries);
  }

  /** Stores a file's bytes at a path, creating the entry or replacing the old bytes. */
  method Put(image: Image, path: Path, stream: seq<Byte>, size: int) returns (status: Status, ghost t: Trace)
    requires image.Valid()
    modifies image, image.device
    ensures image.Valid()
    ensures PutStatus(old(Now(image)), image.writable, t.before, path, stream, size, status)
    ensures Outcome(old(Now(image)), Now(image), status, t, path, Some(File(stream)))
  {
    hide WellFormed, OpenSlot, Resolve, View, Layout, Unacceptable, ParentIs, Find, NoRoom, Succeeds, Fails, PathUpdated,
      ValidPath, HasParent, NoParent, Siblings, Encode, Decode;
    t := Trace(map[], map[], []);
    NothingWritten(Now(image), map[]);
    if !image.writable {
      return ReadOnly, t;
    }
    if size < 0 {
      return InvalidLength, t;
    }
    if BlocksFor(size) > MAX_CHAIN_BLOCKS {
      return ChainLimit, t;
    }
    var ok, ns := Verify(image.device.blocks, image.Value());
    if !ok {
      return CorruptImage, t;
    }
    t := Trace(ns, ns, []);
    NothingWritten(Now(image), ns);
    var parent, name, entries;
    status, parent, name, entries := ParentAndName(image.device.blocks, image.Value(), path, ns);
    if status != Done {
      MissingParent(ns, path, status);
      return;
    }
    SiblingsAre(ns, path, parent, entries);
    PathOf(ns, path, parent, entries);
    var found, entry := FindEntry(entries, name);
    if found {
      EntryResolves(image.device.blocks, image.Value(), ns, path, parent, entry);
      status, t := Overwrite(image, path, entry, parent, stream, size, ns);
    } else {
      status, t := CreateEntry(image, path, parent, entries, KIND_FILE, stream, size, ns);
    }
  }

  lemma MissingParent(ns: Nodes, path: Path, status: Status)
    requires status == InvalidPath <==> !ValidPath(path)
    requires status == NotFound || status == NotADirectory ==> path != [] && View(ns, ParentOf(path)) != Some(Directory)
    ensures status == InvalidPath <==> !ValidPath(path)
    ensures status == NotFound || status == NotADirectory ==> NoParent(ns, path)
  {
    hide View;
  }

  lemma PathOf(ns: Nodes, path: Path, parent: Inode, entries: seq<Entry>)
    requires ParentIs(ns, path, parent, entries)
    ensures path != [] && IsDir(ns, parent.number) && entries == ns[parent.number].entries
    ensures forall e :: e in entries && e.name == path[|path| - 1] ==> EntryIs(ns, path, parent, e)
  {
    hide Resolve;
  }

  // ---- mkdir ----

  ghost predicate MakeCause(s0: Snapshot, ns: Nodes, path: Path, status: Status) {
    match status
    case Done => HasParent(ns, path) && View(ns, path).None?
    case InvalidPath => !ValidPath(path)
    case NotFound => NoParent(ns, path)
    case NotADirectory => NoParent(ns, path)
    case AlreadyExists => View(ns, path).Some?
    case NoSpace =>
      HasParent(ns, path) && NoRoom(s0, Siblings(ns, path), path[|path| - 1], KIND_DIRECTORY, EmptyDirectorySize())
    case FieldOverflow => s0.img.super.generation + 1 >= Pow256(8)
    case _ => false
  }

  function EmptyDirectorySize(): nat { 8 }

  ghost predicate MakeStatus(s0: Snapshot, writable: bool, ns: Nodes, path: Path, status: Status) {
    match status
    case ReadOnly => !writable
    case CorruptImage => writable && Unacceptable(s0.disk, s0.img)
    case _ => Reached(s0, writable, ns) && MakeCause(s0, ns, path, status)
  }

  lemma EmptyDirectory()
    ensures Encode([]).Encoded? && |Encode([]).bytes| == EmptyDirectorySize() && Decode(Encode([]).bytes) == Some([])
    ensures BlocksFor(EmptyDirectorySize()) <= MAX_CHAIN_BLOCKS
  {
    hide DirHeader, Decode;
    FieldWidths();
    DecodeOfEncode([]);
  }

  method MakeDirectory(image: Image, path: Path) returns (status: Status, ghost t: Trace)
    requires image.Valid()
    modifies image, image.device
    ensures image.Valid()
    ensures MakeStatus(old(Now(image)), image.writable, t.before, path, status)
    ensures Outcome(old(Now(image)), Now(image), status, t, path, Some(Directory))
  {
    hide WellFormed, OpenSlot, Resolve, View, Layout, Unacceptable, ParentIs, Find, NoRoom, Succeeds, Fails, PathUpdated,
      ValidPath, HasParent, NoParent, Siblings, Encode, Decode;
    t := Trace(map[], map[], []);
    NothingWritten(Now(image), map[]);
    if !image.writable {
      return ReadOnly, t;
    }
    var ok, ns := Verify(image.device.blocks, image.Value());
    if !ok {
      return CorruptImage, t;
    }
    t := Trace(ns, ns, []);
    NothingWritten(Now(image), ns);
    var parent, name, entries;
    status, parent, name, entries := ParentAndName(image.device.blocks, image.Value(), path, ns);
    if status != Done {
      MissingParent(ns, path, status);
      return;
    }
    SiblingsAre(ns, path, parent, entries);
    PathOf(ns, path, parent, entries);
    var found, entry := FindEntry(entries, name);
    if found {
      EntryResolves(image.device.blocks, image.Value(), ns, path, parent, entry);
      return AlreadyExists, t;
    }
    EmptyDirectory();
    var payload := EncodeDirectory([]);
    status, t := CreateEntry(image, path, parent, entries, KIND_DIRECTORY, payload.bytes, |payload.bytes|, ns);
  }

  // ---- remove ----

  ghost predicate RemoveCause(s0: Snapshot, ns: Nodes, path: Path, status: Status) {
    match status
    case Done => HasParent(ns, path) && View(ns, path).Some? && !HasChild(ns, path)
    case InvalidPath => !ValidPath(path)
    case NotFound => NoParent(ns, path) || View(ns, path).None?
    case NotADirectory => NoParent(ns, path)
    case NotEmpty => View(ns, path) == Some(Directory) && HasChild(ns, path)
    case NoSpace =>
      && HasParent(ns, path)
      && DirectoryTooBig(Without(Siblings(ns, path), path[|path| - 1]), s0.img.super.freeBlocks)
    case FieldOverflow => s0.img.super.generation + 1 >= Pow256(8)
    case _ => false
  }

  ghost predicate RemovalStatus(s0: Snapshot, writable: bool, ns: Nodes, path: Path, status: Status) {
    match status
    case ReadOnly => !writable
    case CorruptImage => writable && Unacceptable(s0.disk, s0.img)
    case _ => Reached(s0, writable, ns) && RemoveCause(s0, ns, path, status)
  }

  method Remove(image: Image, path: Path) returns (status: Status, ghost t: Trace)
    requires image.Valid()
    modifies image, image.device
    ensures image.Valid()
    ensures RemovalStatus(old(Now(image)), image.writable, t.before, path, status)
    ensures Outcome(old(Now(image)), Now(image), status, t, path, None)
  {
    hide WellFormed, OpenSlot, Resolve, View, Layout, Unacceptable, ParentIs, Find, NoRoom, Succeeds, Fails, PathUpdated,
      ValidPath, HasParent, NoParent, Siblings, Encode, Decode, HasChild, Without, DirectoryTooBig;
    t := Trace(map[], map[], []);
    NothingWritten(Now(image), map[]);
    if !image.writable {
      return ReadOnly, t;
    }
    var ok, ns := Verify(image.device.blocks, image.Value());
    if !ok {
      return CorruptImage, t;
    }
    t := Trace(ns, ns, []);
    NothingWritten(Now(image), ns);
    var parent, name, entries;
    status, parent, name, entries := ParentAndName(image.device.blocks, image.Value(), path, ns);
    if status != Done {
      MissingParent(ns, path, status);
      return;
    }
    SiblingsAre(ns, path, parent, entries);
    PathOf(ns, path, parent, entries);
    var found, entry := FindEntry(entries, name);
    if !found {
      return NotFound, t;
    }
    status, t := RemoveEntry(image, path, entry, parent, entries, ns);
  }
}
