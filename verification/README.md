# Verification of the Windows 98 compatibility cores

A Dafny model of the parts of the repository whose correctness rests on reasoning: a
copy-on-write filesystem, three shared-state protocols with callbacks or lock-free updates, two
more handle and clock protocols, a CSS tokenizer with its serializer and `var()` engine, a PE
import rewriter, a streaming hash and a triangle rasterizer. `dafny verify dfyconfig.toml` checks
everything.

## How the project is organised

One module per file. `Options`, `FiniteSets`, `Modular` (remainders of wrapped counters) and
`ByteStrings` (little-endian fields, packed records, CRC-32) are shared. Beside the definitions of a
component stand modules that say what they come to in plain terms (bytes at offsets, code points,
single undisturbed calls, what a reader gets back), naming none of them: `ShizukuByteOrder`,
`ShizukuLayout`, `ShizukuPaths`, `FlsValues`, `SequencedListCalls`, `CssUnits`, `CssTokenLaws`,
`CssGrammarLaws`, `CssVarText`, `CssDeclared`, `PeRouting`, `PeRules`, `HandleView`,
`CoreClockCalls`, `InitOnceCalls`, `HashPadding` and `RasterLaws`.

| component | modules | main results |
|---|---|---|
| ShizukuFS v0 (`shizukufs/format.py`) | `Shizuku*` | `RunRefinesPathMap`, `CrashAtomicity`, `Verify`, `NodesUnique`, `DecodeOfEncode`/`EncodeOfDecode`, `EncodedIff`, `SuperLayout` |
| FLS bridge (`src/m98_fls.c`) | `Fls*` | `StepKeeps`, `ReturnIsQuiescent`, `ReuseIsQuiet`, `QuiescentForever`, `StoredValueFate`, `CountersAreExact`, `KnotForever`, `SetThenGet` |
| Sequenced list (`src/m98_slist.c`) | `SequencedList`, `SequencedListCalls` | `Linearizable`, `StaleSwapIff`, `PopIs` |
| CSS syntax (`src/m98_css_syntax.c`) | `CssTokens`, `CssUnits`, `CssTokenLaws`, `CssSerialize` to `CssLexer` | `RoundTrip`, `RoundTripKeepsShape`, `ScalarsRead` |
| CSS variables (`src/m98_css_variables.c`) | `CssBrackets`, `CssSubstitution`, `CssNormalize`, `CssRoom`, `CssProperties`, `CssVariables`, `CssVarRead`, `CssVarText`, `CssGrammarLaws`, `CssEvaluator`, `CssCompute`, `CssDeclared` | `EvaluateAll`, `OrderIsIrrelevant`, `MarkedCountAsAbsent`, `SubstituteValue`, `DeclaredCall` |
| PE imports (`ntwin32/prepare.py`) | `Pe*` | `PreparedPreserves`, `PreparedRoutes`, `ParseRule`, `MovedBindings`, `SecondHeaderWins` |
| Object table (`ntwrapper/core.c`) | `HandleTable`, `HandleView`, `HandleContext` | `EventIs`, `ResolvesIff`, `ShutdownIff`, `GrantsAreBounded` |
| Core clock (`ntwin32/core_clock.c`) | `CoreClock`, `CoreClockCalls` | `OwnershipHolds`, `StopIsFinal`, `QueryAlone` |
| One-time initialization (`ntwin32/initonce.c`) | `InitOnce`, `InitOnceCalls` | `DoneForever`, `LaterBeginsReturnTheResult`, `OverlapIff` |
| Streaming hash (`src/bcrypt_shim.c`) | `StreamingHash`, `HashPadding` | `PaddedBytes`, `HashState.Final`, `HashObject.FinishHash` |
| Rasterizer (`src/m98_softpipe_raster.c`) | `RasterCoverage`, `RasterDraw`, `RasterLaws` | `InteriorIsCovered`, `SharedEdgeIsWatertight`, `FanCoversVertexOnce`, `NoGap`, `Execute` |

**ShizukuFS.** The disk is a sequence of blocks; every write and flush is an event in a log. The
codecs of superblock, inode, data block and directory are bijections between values and the exact
bytes written. `WellFormed(disk, image, nodes)` is the image invariant (disjoint chains, bitmap equal
to reserved plus used blocks, one rooted tree, exact free counts), `nodes` is unique, and the `Verify`
method succeeds exactly on well-formed images. `Transaction` is the source's copy-on-write
transaction; `Put`, `MakeDirectory` and `Remove` are proved against a path map. A run is any sequence
of calls and crashes, a crash being any prefix of the log with any subset of the writes since the
last flush, and a partially written superblock; each run is equivalent to a list of updates of the
path map in which a call that failed contributes nothing and a call that crashed contributes all or
nothing.

**FLS.** Each locked section is one atomic step of a state with slots, generations, records,
per-thread cleanup frames and a ghost history of stored and delivered values. `FlsTheorems` proves
the whole-run statements, `FlsWaiting` says what a retirement waits for and when retirements wait for
each other for ever; `FlsBridge.Bridge` is the imperative form of each section, proved equal to the
step.

**Sequenced list, initialization word, core clock.** State machines in which any thread may take the
next atomic access at any time; the theorems quantify over all interleavings.

**CSS.** `Tokens` and `Serial` are functions over the code points; the `Lexer` and `Writer` classes
carry the source's cursor, value pool and output buffer and are proved equal to them. For variables,
a *meaning* of a property table gives every property a value that equals the substitution of its
specified value, with references going down in some rank. The evaluator marks a cycle exactly when
the table has no meaning, and otherwise computes that meaning's values; permuting the declarations
changes neither. With cycles, values are what substitution gives when marked properties do not exist.
`CssRoom.Room` says that a substitution overfills no buffer and nests no deeper than allowed: under a
meaning a computation succeeds exactly if every property has room, and otherwise reports a limit.

**PE.** Parsing, import reading and the whole preparation (`Prepared`) are functions over the bytes,
and the methods with the program's loops are proved equal to them. `Preserved` says that every
import cell again holds its unbound value and that no other input byte changed outside the listed
header fields; and, if the header pointer stays and the import names lie outside the rewritten bytes,
that reading the output's import directory gives the input's bindings in the same order and at the
same addresses, rerouted only as planned.

Where the code and the natural expectation differ, the code is followed:

- A thread that completes an initialization it was not told to perform can make callbacks overlap
  (`InitOnce.StrangersBreakExclusion` gives seven steps with one such thread). `InitOnce.OverlapIff`
  says exactly which step of that kind makes an overlap reachable: a reset, unless the attempt's
  owner has only an aligned context left to publish. Harmless ones are a publication, a swap that
  fails, and that reset. Callers of `ntw_once_begin` and `ntw_once_execute` alone never overlap.
- A stale compare-and-swap of the sequenced list succeeds exactly when the first node and the depth
  agree and the number of mutations in between is a multiple of 65536 (`SequencedList.StaleSwapIff`);
  the run theorem excludes only swaps that come a positive multiple of 65536 mutations late.
- `FlsFree` completes when the slot's remaining callbacks are all suspended calls of its own thread, but
  two threads that each retire, inside a callback, the slot whose callback the other is running wait for
  ever: `FlsWaiting.WaitsIff` gives the exact cause of a wait, `FlsWaiting.KnotForever` shows that no
  nested continuation resolves such a knot, and `FlsDeadlock.KnotHappens` runs into one.
- When the PE header begins at offset 25 to 30, inside the DOS header, the patched initialized-data
  size shares bytes with the pointer at offset 60. `PePrepare.PointerKeptIff` says exactly when the
  pointer survives, `PePrepare.PointerStaysElsewhere` that every other position is safe, and
  `PeSecondHeader.SecondHeaderWins` gives an image, accepted under the shipped routes, whose pointer
  moves to a second header, so that the loader goes on binding KERNEL32.DLL. `PeMoved.MovedBindings`
  says what such an output binds in general.
- Serialization adds a newline after a backslash delimiter, and comments split white space, so the
  token round trip is up to merging adjacent white space (`CssRoundTrip.Collapse`).

## Model

| member | source | states |
|---|---|---|
| `ShizukuBitmap.MarkAllocatedRange` | shizukufs/format.py:87-97 | Afterwards a bit is set exactly if it was set or its number lies in the range. |
| `ShizukuFormat.SuperRoundTrip` | shizukufs/format.py:204-257 | A valid superblock read back from its block is the same superblock. |
| `ShizukuFormat.SuperAcceptsOnlyWritten` | shizukufs/format.py:218-257 | Any block the reader accepts is byte for byte the block the writer makes for the value read. |
| `ShizukuFormat.InodeRoundTrip` | shizukufs/format.py:270-299 | An inode whose fields fit reads back from its 128 bytes as itself. |
| `ShizukuFormat.InodeAcceptsOnlyWritten` | shizukufs/format.py:280-299 | Any accepted inode record is exactly the record written for the inode read. |
| `ShizukuFormat.DataRoundTrip` | shizukufs/format.py:505-512 | A written data block is accepted for its owner and length and yields its link and its piece. |
| `ShizukuFormat.DataAcceptsOnlyWritten` | shizukufs/format.py:526-557 | An accepted data block is exactly the block written for its link and piece, padding included. |
| `ShizukuLayout.SuperLayout` | shizukufs/format.py:204-257 | Offset by offset: letters, version, sizes, dimensions, slot, generation, counters, checksums and zeros of every superblock written. |
| `ShizukuLayout.InodeLayout` | shizukufs/format.py:270-299 | Offset by offset: letters, number, kind, parent, size, first block, block count, checksum, generation and zeros of every inode. |
| `ShizukuLayout.DataLayout` | shizukufs/format.py:505-512 | Offset by offset: letters, owner, next block, payload checksum, piece and zeros of every data block. |
| `ShizukuLayout.ChunksCover` | shizukufs/format.py:505-512 | The pieces of a content follow each other without gap; all but the last fill their 4080 bytes. |
| `ShizukuLayout.CrcCheck` | shizukufs/format.py:71-72 | The checksum of "123456789" is 0xCBF43926, as zlib computes it. |
| `ShizukuLayout.BitPlace` | shizukufs/format.py:75-97 | Block b is bit b modulo 8, from the least, of byte b / 8. |
| `ShizukuLayout.MetadataPlace` | shizukufs/format.py:218-257 | The two metadata copies follow the superblocks; each is the bitmap and eight inode blocks; the data blocks follow both. |
| `ShizukuDirectory.DecodeOfEncode` | shizukufs/format.py:318-372 | Decoding an encoded directory gives its entries sorted by name bytes. |
| `ShizukuDirectory.EncodeOfDecode` | shizukufs/format.py:318-372 | Whatever the decoder accepts is strictly sorted and valid, and re-encodes to the same bytes. |
| `ShizukuDirectory.SortKeepsAll` | shizukufs/format.py:318-322 | Sorting permutes the entries. |
| `ShizukuByteOrder.DecodedAscends` | shizukufs/format.py:341-372 | In every accepted directory the names ascend: where two of them part, the first ends or has the smaller byte. |
| `ShizukuByteOrder.AscendingDecodes` | shizukufs/format.py:318-372 | At most 254 valid entries whose names so ascend encode, and decode to themselves. |
| `ShizukuByteOrder.EncodedIff` | shizukufs/format.py:318-339 | The encoder accepts exactly valid entries with different names, at most 254, and writes them ascending. |
| `ShizukuLayout.DirectoryLayout` | shizukufs/format.py:318-372 | An accepted directory is its letters, its count, and record after record: inode, kind, length, zeros, name, zeros up to a multiple of four. |
| `ShizukuLayout.NameRule` | shizukufs/format.py:302-315 | A name is one to 255 bytes without slash and NUL, and neither of the dot names. |
| `ShizukuDirectory.EncodeDirectory` | shizukufs/format.py:318-334 | The encoder loop produces the specified bytes or the specified refusal. |
| `ShizukuDirectory.DecodeDirectory` | shizukufs/format.py:337-372 | The decoder loop accepts and returns exactly what the specification does. |
| `ShizukuDirectory.EncodeWithNew` | shizukufs/format.py:742-743 | Adding a new valid name to a decoded directory can only fail for the entry limit, and the result holds the old entries plus the new one. |
| `ShizukuDirectory.EncodeWithout` | shizukufs/format.py:759 | Dropping a name from a decoded directory always encodes. |
| `ShizukuImage.ChainUnique` | shizukufs/format.py:520-557 | An inode describes at most one chain and one content on a given disk. |
| `ShizukuImage.NodesUnique` | shizukufs/format.py:616-682 | A disk and image have at most one well-formed node map, so the tree an image stands for is determined. |
| `ShizukuImage.WellFormedFrame` | shizukufs/format.py:520-557 | The image reads the same from any disk that agrees on its allocated data blocks. |
| `ShizukuTree.PathsAreUnique` | shizukufs/format.py:567-580 | In a well-linked tree two paths that resolve to one inode are equal. |
| `ShizukuPaths.ResolveIs` | shizukufs/format.py:567-580 | The root is inode 1; a longer path leads to what the directory before its last component names so, and nowhere else. |
| `ShizukuPaths.ViewIs` | shizukufs/format.py:567-580 | A path shows a directory for kind 2, the file bytes for kind 1, and nothing exactly where it leads nowhere. |
| `ShizukuTree.OverwriteView` | shizukufs/format.py:732-744 | Replacing a file's node changes what is at its path and at no other. |
| `ShizukuTree.LinkView` | shizukufs/format.py:739-744 | Linking a fresh inode makes exactly one new path appear. |
| `ShizukuTree.LinkTree` | shizukufs/format.py:739-744 | Linking keeps a single rooted tree with every inode reachable. |
| `ShizukuTree.UnlinkView` | shizukufs/format.py:758-761 | Unlinking makes exactly one path disappear. |
| `ShizukuTree.UnlinkTree` | shizukufs/format.py:753-761 | Unlinking a file or an empty directory keeps a single rooted tree. |
| `ShizukuStaging.StagedInitially` | shizukufs/format.py:767-775 | A new transaction satisfies the staging invariant. |
| `ShizukuStaging.AllocateOne` | shizukufs/format.py:777-793 | Taking the first clear bit keeps the allocator's accounts; the block was free in the committed bitmap. |
| `ShizukuStaging.StagedAfterStore` | shizukufs/format.py:816-840 | Storing an inode with its freshly written chain keeps the staging invariant and releases exactly the old chain. |
| `ShizukuStaging.StagedAfterRelease` | shizukufs/format.py:848-852 | Freeing an inode keeps the staging invariant. |
| `ShizukuStaging.CommitWellFormed` | shizukufs/format.py:854-875 | Clearing the released blocks yields an image that satisfies the whole invariant, so the commit's own check cannot fail. |
| `ShizukuCrash.CrashAtomicity` | shizukufs/format.py:854-886 | A crash at any point of a commit leaves a disk on which open finds the complete old or the complete new image; before publication the old one, at the end the new one. |
| `ShizukuCrash.AbortAtomicity` | shizukufs/format.py:816-840 | A crash during a transaction that never commits leaves the old image intact. |
| `ShizukuCrash.CommitCompletes` | shizukufs/format.py:854-886 | After the whole sequence the new generation is the one on disk and well formed. |
| `ShizukuCrash.OpenOfClean` | shizukufs/format.py:450-483 | Open selects the newest generation whose superblock and metadata agree. |
| `ShizukuVerify.ContentChunks` | shizukufs/format.py:520-557 | Reading a chain succeeds exactly if the inode has a readable chain, and returns its blocks and bytes. |
| `ShizukuVerify.LoadNodes` | shizukufs/format.py:617-658 | Either every inode is loaded with its chain and entries, or no node map fits the image. |
| `ShizukuVerify.CheckReferences` | shizukufs/format.py:657-662 | The reference check passes exactly if every inode but the root is listed once and the root never. |
| `ShizukuVerify.CheckReachable` | shizukufs/format.py:663-671 | The reachability check passes exactly if every inode is reachable from the root. |
| `ShizukuVerify.CheckChains` | shizukufs/format.py:635-644 | The chain check passes exactly if all chains are disjoint, and collects the used blocks. |
| `ShizukuVerify.CheckBitmap` | shizukufs/format.py:673-679 | The bitmap check passes exactly if the set bits are the reserved and used blocks. |
| `ShizukuVerify.Verify` | shizukufs/format.py:616-693 | Verification succeeds with the node map of the image, or no node map makes the image well formed. |
| `ShizukuTransaction.ScanFree` | shizukufs/format.py:777-793 | The first-fit scan finds the promised number of distinct free blocks, so its failure branch is unreachable. |
| `ShizukuTransaction.WriteChain` | shizukufs/format.py:816-840 | Exactly the chain's blocks are written, and they read back as the content; success exactly if the stream has the announced size. |
| `ShizukuTransaction.ClearBlocks` | shizukufs/format.py:854-859 | Exactly the released bits are cleared, all of which were set. |
| `ShizukuTransaction.Transaction.AllocateBlocks` | shizukufs/format.py:777-793 | Fails exactly for too long a chain or too few free blocks; otherwise returns distinct blocks free in the committed image. |
| `ShizukuTransaction.Transaction.AllocateInode` | shizukufs/format.py:795-803 | Fails exactly when no inode is free; otherwise returns an unused number above the root's. |
| `ShizukuTransaction.Transaction.ReleaseContent` | shizukufs/format.py:809-814 | Adds exactly the inode's committed chain to the blocks to release. |
| `ShizukuTransaction.Transaction.WriteInodeContent` | shizukufs/format.py:816-840 | On success exactly one node is replaced or added; on failure only free blocks were written. |
| `ShizukuTransaction.Transaction.RewriteDirectory` | shizukufs/format.py:842-846 | On success the directory's node holds the sorted entries and nothing else changed. |
| `ShizukuTransaction.Transaction.ReleaseInode` | shizukufs/format.py:848-852 | Exactly one node disappears. |
| `ShizukuTransaction.Transaction.Commit` | shizukufs/format.py:854-886 | The staged tree becomes the image on disk, through exactly the ordered writes and flushes of the commit sequence. |
| `ShizukuFilesystem.ReadContent` | shizukufs/format.py:559-560 | On a well-formed image the bytes read are the node's content. |
| `ShizukuFilesystem.Lookup` | shizukufs/format.py:567-580 | Lookup returns the inode that the path resolves to, or fails exactly when it resolves to none. |
| `ShizukuFilesystem.ReadFile` | shizukufs/format.py:593-599 | A successful read returns the bytes that the path map holds, and a file within the size limit is always read. |
| `ShizukuUpdates.ParentAndName` | shizukufs/format.py:582-588 | Splits a path, failing exactly on invalid paths and on missing or non-directory parents. |
| `ShizukuUpdates.FailureKeepsTree` | shizukufs/format.py:854-886 | After a failed call the image stands for the same tree. |
| `ShizukuUpdates.Overwrite` | shizukufs/format.py:732-744 | Replacing a file changes exactly its path; every failure has its cause and changes nothing. |
| `ShizukuUpdates.CreateEntry` | shizukufs/format.py:705-744 | Creating a file or directory adds exactly one path; every failure has its cause and changes nothing. |
| `ShizukuUpdates.RemoveEntry` | shizukufs/format.py:753-761 | Removing takes away exactly one path; every failure has its cause and changes nothing. |
| `ShizukuOperations.Put` | shizukufs/format.py:714-744 | Success sets exactly this path to the stream's bytes; each error status implies its cause in terms of the path map. |
| `ShizukuOperations.MakeDirectory` | shizukufs/format.py:699-712 | Success adds exactly this path as a directory; each error status implies its cause. |
| `ShizukuOperations.Remove` | shizukufs/format.py:746-761 | Success removes exactly this path; a directory with children is refused; each error status implies its cause. |
| `ShizukuRuns.CrashedHolds` | shizukufs/format.py:450-483 | After a crash inside any call, open succeeds and finds the tree before or after that call. |
| `ShizukuRuns.RanHolds` | shizukufs/format.py:722-761 | A completed call keeps the run invariant, with the new tree exactly if it succeeded. |
| `ShizukuRuns.RunRefinesPathMap` | shizukufs/format.py:699-761 | Any run of calls and crashes is equivalent to a sequence of path-map updates, one per effective call. |
| `ShizukuCreate.Create` | shizukufs/format.py:399-447 | A created image opens, is well formed and shows only the root; success exactly for lengths in range. |
| `ShizukuCreate.OpenImage` | shizukufs/format.py:450-486 | Opening returns the selected generation or the specified error. |
| `FlsRuns.StepKeeps` | src/m98_fls.c:258-416 | Every locked section, in any interleaving, keeps the bridge's invariant. |
| `FlsTheorems.LocalCount` | src/m98_fls.c:290-299 | The local callback count is the number of the caller's own frames that hold a reservation on the slot's generation. |
| `FlsTheorems.OnlyLocal` | src/m98_fls.c:304-342 | If the slot's count does not exceed the local count, every reservation belongs to the caller's own frames. |
| `FlsTheorems.ReturnIsQuiescent` | src/m98_fls.c:301-343 | When a retirement returns, no value of the slot is held anywhere and remaining reservations belong to the caller's own suspended frames. |
| `FlsTheorems.ReuseIsQuiet` | src/m98_fls.c:418-445 | A slot starts a new life only in an allocation, from the free state and with no reservation left. |
| `FlsTheorems.DeliversOnlyUnreturned` | src/m98_fls.c:301-387 | A step delivers at most one value, never one of a life whose retirement has returned. |
| `FlsTheorems.QuiescentForever` | src/m98_fls.c:447-477 | Once a retirement has returned, no callback of that life ever starts again, in any continuation. |
| `FlsTheorems.FreedForever` | src/m98_fls.c:219-256 | A freed record is never again reachable from the list, a frame or a thread. |
| `FlsTheorems.StoredValueFate` | src/m98_fls.c:345-387 | Each stored value is held where the history says, delivered, overwritten or discarded; delivered ones exactly once, to their own life's callback. |
| `FlsTheorems.CountersAreExact` | src/m98_fls.c:219-299 | In every reachable state callback counts equal the reserving frames and reference counts equal list membership plus pinning frames. |
| `FlsWaiting.WaitsIff` | src/m98_fls.c:320-325 | The slot's count exceeds the caller's local count exactly if another thread is inside one of its callbacks. |
| `FlsValues.SetStores` | src/m98_fls.c:513-551 | An accepted store puts exactly this value into exactly this cell of the caller's record, with the slot's generation; what stood there counts as overwritten; any other store changes nothing. |
| `FlsValues.SetThenGet` | src/m98_fls.c:479-551 | Afterwards the caller reads the value it stored, and every caller reads everything else as before. |
| `FlsValues.AllocGives` | src/m98_fls.c:418-445 | The lowest free slot becomes active with the callback given, in a life not registered before, and nobody reads anything from it. |
| `FlsValues.FreeRetires` | src/m98_fls.c:447-477 | Freeing an active slot makes it retiring, puts the retirement on top of the thread's frames, and from then on nothing is stored there. |
| `FlsValues.SlotsOnlyAge` | src/m98_fls.c:258-266 | Every step but an allocation takes every slot only from active to retiring to free; a freed slot has no callback and the next 32-bit generation, 1 after the last. |
| `FlsValues.RundownEnds` | src/m98_fls.c:345-388 | Once its values are gone, a rundown that waits stays exactly while a retirement pins the record; any other unlinks the record and frees it exactly if nobody pins it. |
| `FlsValues.ConvertKeepsReads` | src/m98_fls.c:553-595 | What a thread read before it became a fiber, the fiber reads afterwards, and the thread nothing. |
| `FlsWaiting.KnotStays` | src/m98_fls.c:301-343 | Retirements each blocked by a callback inside which another of them began stay so in every step, as long as calls nest. |
| `FlsWaiting.KnotForever` | src/m98_fls.c:301-343 | In no continuation with nested calls does any retirement of such a knot return. |
| `FlsDeadlock.KnotHappens` | src/m98_fls.c:301-416 | A run from the initial state reaches a knot of two retirements, each begun in a callback of the slot that the other retires. |
| `FlsBridge.Bridge.Alloc` | src/m98_fls.c:418-445 | Allocates the first free slot; fails exactly if none is free. |
| `FlsBridge.Bridge.BeginFree` | src/m98_fls.c:447-477 | Starts a retirement exactly for an active slot in range. |
| `FlsBridge.Bridge.DropRecord` | src/m98_fls.c:246-256 | Gives up the pinned record and reports exactly whether it must be freed. |
| `FlsBridge.Bridge.CountLocal` | src/m98_fls.c:290-299 | The loop over the thread's frames computes the specified count. |
| `FlsBridge.Bridge.FinishRetirement` | src/m98_fls.c:258-269 | Marks the slot done, releasing it when no callback is reserved, and unlinks the frame. |
| `FlsBridge.Bridge.ScanRound` | src/m98_fls.c:301-343 | One round of a retirement equals the atomic step, hands out exactly the value taken, and waits exactly if no value is left and another thread is inside a callback of the slot. |
| `FlsBridge.Bridge.RundownStep` | src/m98_fls.c:345-387 | One round of a record's rundown equals the atomic step. |
| `FlsBridge.Bridge.BeginRundown` | src/m98_fls.c:395-416 | Starts a rundown exactly if the record is live. |
| `FlsBridge.Bridge.GetValue` | src/m98_fls.c:479-511 | Returns the value in the caller's record, null without one, and fails exactly for inactive slots or a fiber without a record. |
| `FlsBridge.Bridge.SetValue` | src/m98_fls.c:513-551 | On success exactly the caller's cell holds exactly the value and everything else is as before, a thread record being created when needed; on failure nothing changes. |
| `FlsBridge.Bridge.TransferCells` | src/m98_fls.c:575-593 | Moves every value of the thread's record to the fiber's and empties the former. |
| `FlsBridge.Bridge.ConvertThread` | src/m98_fls.c:553-595 | Conversion equals the atomic step: values move, the thread's record dies. |
| `FlsBridge.Bridge.CreateFiber` | src/m98_fls.c:621-644 | Creating a fiber links one empty record. |
| `SequencedList.AdvanceIs` | src/m98_slist.c:54-58 | The header word after an update has the next sequence and the new depth, both modulo 65536. |
| `SequencedList.PopHighIs` | src/m98_slist.c:189-193 | The pop's header arithmetic advances the sequence and lowers the depth by one. |
| `SequencedList.FlushHighIs` | src/m98_slist.c:87-98 | The flush's header arithmetic advances the sequence and clears the depth. |
| `SequencedList.NothingHappened` | src/m98_slist.c:42-58 | Unless a positive multiple of 65536 mutations has gone by since the snapshot, a header equal to it means that no mutation happened. |
| `SequencedList.Linearizable` | src/m98_slist.c:74-197 | In every interleaving in which no swap or fault comes a positive multiple of 65536 mutations after its snapshot, header and links represent the stack obtained by replaying the effects in order, depth is its length modulo 65536, and no fault escapes. |
| `SequencedList.StaleSwapIff` | src/m98_slist.c:42-58 | Exactly when a stale swap would succeed. |
| `SequencedListCalls.PushIs` | src/m98_slist.c:74-114 | An undisturbed push puts the chain in front, links its last node to the old top and answers the old top. |
| `SequencedListCalls.PopIs` | src/m98_slist.c:120-197 | An undisturbed pop takes the first node and answers it, or 0. |
| `SequencedListCalls.FlushIs` | src/m98_slist.c:87-98 | An undisturbed flush takes everything and answers the first node. |
| `SequencedListCalls.ReplayIs` | src/m98_slist.c:74-197 | Replaying accepts exactly the answers of a last-in, first-out list. |
| `SequencedListCalls.WrappedIs` | src/m98_slist.c:15-30 | A snapshot is confusable exactly if a positive multiple of 65536 mutations has passed since. |
| `CssRoundTrip.SerialReadsBack` | src/m98_css_syntax.c:201-233 | Tokenizing the serialization of a well-shaped token sequence gives the sequence with white-space runs merged. |
| `CssProduced.TokensGood` | src/m98_css_syntax.c:146-171 | Everything the tokenizer produces is well shaped. |
| `CssUnits.ScalarsRead` | src/m98_css_syntax.c:179-185 | The UTF-16 text of scalar values without CR and FF reads back as these values. |
| `CssUnits.PairRead` | src/m98_css_syntax.c:182 | A surrogate pair is the code point whose upper and lower ten bits its units carry. |
| `CssUnits.UnitRead` | src/m98_css_syntax.c:179-185 | CR LF, CR and FF become one line feed, NUL and lone surrogates U+FFFD, any other unit itself. |
| `CssTokenLaws.WhitespaceReads` | src/m98_css_syntax.c:146-171 | A maximal run of blanks, tabs and line feeds is one token. |
| `CssTokenLaws.IdentReads` | src/m98_css_syntax.c:140-145 | A name that no parenthesis follows is an identifier. |
| `CssTokenLaws.FunctionReads` | src/m98_css_syntax.c:140-145 | A name with its parenthesis is a function, unless it is an unquoted url. |
| `CssTokenLaws.HashReads` | src/m98_css_syntax.c:146-171 | A number sign takes the name behind it and notes whether it could be an identifier. |
| `CssTokenLaws.NumberReads` | src/m98_css_syntax.c:125-139 | Sign, digits, fraction and exponent are one number, an integer exactly without fraction and exponent. |
| `CssTokenLaws.PercentageReads` | src/m98_css_syntax.c:125-139 | A number with a per cent sign is a percentage. |
| `CssTokenLaws.DimensionReads` | src/m98_css_syntax.c:125-139 | A number with a name behind it is a dimension with that unit. |
| `CssTokenLaws.HexEscapeReads` | src/m98_css_syntax.c:80-90 | A backslash and up to six hexadecimal digits are their number, or U+FFFD; one blank belongs to them. |
| `CssTokenLaws.StringReads` | src/m98_css_syntax.c:111-124 | Up to the same quote again it is a string. |
| `CssTokenLaws.BadStringReads` | src/m98_css_syntax.c:111-124 | A line feed makes a string bad and is not part of it. |
| `CssTokenLaws.UrlReads` | src/m98_css_syntax.c:93-110 | url(, blanks, an address without forbidden code points, blanks and ) are a url. |
| `CssTokenLaws.BadUrlReads` | src/m98_css_syntax.c:93-110 | A forbidden code point makes a url bad up to the next closing parenthesis. |
| `CssTokenLaws.CommentReads` | src/m98_css_syntax.c:187-192 | Comments vanish; an open one takes the rest. |
| `CssTokenLaws.OpenStringReads` | src/m98_css_syntax.c:111-124 | The end of the input closes a string. |
| `CssTokenLaws.QuotedUrlReads` | src/m98_css_syntax.c:160-163 | url( in front of a quoted string is a function like any other. |
| `CssTokenLaws.MarksRead` | src/m98_css_syntax.c:151-152 | The two HTML comment marks. |
| `CssTokenLaws.PunctuationReads` | src/m98_css_syntax.c:165-168 | ASCII punctuation that begins nothing longer stands for itself. |
| `CssProduced.RoundTrip` | src/m98_css_syntax.c:172-239 | For every accepted input without bad tokens whose serialization fits, serializing and tokenizing again gives the same tokens with white-space runs merged. |
| `CssProduced.RoundTripKeepsShape` | src/m98_css_syntax.c:172-239 | The round trip keeps the sequence of kinds, flags, values, numbers and delimiters exactly, counting a run of white space once. |
| `CssLexer.Lexer.ReadEscape` | src/m98_css_syntax.c:80-90 | The escape reader returns the specified code point and advances by its length. |
| `CssLexer.Lexer.ReadUrl` | src/m98_css_syntax.c:93-110 | The url reader returns the specified value or badness. |
| `CssLexer.Lexer.ReadString` | src/m98_css_syntax.c:111-124 | The string reader returns the specified value or badness. |
| `CssLexer.Lexer.ReadNumber` | src/m98_css_syntax.c:125-139 | The number reader copies the longest number and knows whether it is an integer. |
| `CssLexer.Lexer.ReadToken` | src/m98_css_syntax.c:146-171 | One step of the lexer yields the specified token and length. |
| `CssLexer.TokenizeInput` | src/m98_css_syntax.c:172-196 | Decoding plus the main loop equals the tokenizer function, limits included. |
| `CssLexer.Writer.Pass` | src/m98_css_syntax.c:201-233 | The serializer loop emits exactly the specified text, or refuses bad tokens. |
| `CssLexer.WriteTokens` | src/m98_css_syntax.c:234-239 | The sizing and the writing call agree with the serialization and report the needed size. |
| `CssBrackets.FindMatches` | src/m98_css_variables.c:106-114 | The closing-parenthesis scan of a balanced stream always succeeds, and cuts it into balanced pieces. |
| `CssBrackets.CallParts` | src/m98_css_variables.c:106-120 | The argument and fallback of a call in a balanced stream are balanced. |
| `CssBrackets.AppendAllKeeps` | src/m98_css_syntax.c:47-62 | Appending with separating comments keeps balance and freedom from calls. |
| `CssSubstitution.SubstituteLocal` | src/m98_css_variables.c:101-141 | The result depends only on the values the substitution looks at. |
| `CssSubstitution.SubstituteConcat` | src/m98_css_variables.c:101-141 | Substitution of adjacent complete pieces is the pieces' substitution in order. |
| `CssSubstitution.SubstituteOpens` | src/m98_css_variables.c:101-141 | Substituting plain values into a balanced stream gives a balanced stream without calls. |
| `CssNormalize.NormalIsBalanced` | src/m98_css_variables.c:36-63 | A normalized stream is the input plus closing brackets, balanced, with proper calls; a balanced stream is unchanged. |
| `CssNormalize.NormalizeStream` | src/m98_css_variables.c:36-63 | The stack loop computes the specified normal form or refusal. |
| `CssNormalize.SettlePlain` | src/m98_css_variables.c:85-99 | A computed value is balanced and free of calls. |
| `CssRoom.AppendTokens` | src/m98_css_variables.c:105-135 | Appending token by token succeeds exactly if no prefix of the result leaves the limits, and then gives the merged stream. |
| `CssVarText.CallSubstitutes` | src/m98_css_variables.c:101-141 | The tokens of var, a custom name and ) come to the value of the name, or are invalid without one. |
| `CssVarText.ElseSubstitutes` | src/m98_css_variables.c:101-141 | With a fallback without calls they come to the fallback when there is no value. |
| `CssGrammarLaws.FallbackSubstitutes` | src/m98_css_variables.c:136 | A fallback with calls is substituted in turn when there is no value. |
| `CssVarRead.CallReads` | src/m98_css_syntax.c:140-171 | The letters v, a, r in either case, (, a custom name and ) read as a function token, the name and the parenthesis. |
| `CssGrammarLaws.TrimIs` | src/m98_css_variables.c:64-65 | Trimming takes off the white space at both ends and nothing else. |
| `CssGrammarLaws.AppendedAtoms` | src/m98_css_variables.c:105-135 | Appending loses, adds and reorders nothing and merges adjacent white space. |
| `CssGrammarLaws.FitsIs` | src/m98_css_syntax.h:19-20 | A stream holds at most 4096 tokens and 131072 code points. |
| `CssGrammarLaws.BracketRule` | src/m98_css_variables.c:36-48 | Brackets must match; open ones are closed; nothing may close what is not open. |
| `CssGrammarLaws.DepthRule` | src/m98_css_variables.c:44 | Sixty-four open brackets are closed, one more is too many. |
| `CssGrammarLaws.FunctionRule` | src/m98_css_variables.c:31-63 | A function is refused as unsupported exactly for the names listed and custom names; var() lacks an argument. |
| `CssGrammarLaws.UnsupportedIff` | src/m98_css_variables.c:36-63 | A value with its brackets and arguments in order is unsupported exactly if it names a refused function or spreads a var() by three dots inside another that is still open. |
| `CssVariables.ScanCall` | src/m98_css_variables.c:106-114 | The scan finds the specified closing parenthesis and first top-level comma. |
| `CssEvaluator.MarkCycle` | src/m98_css_variables.c:79 | Exactly the stack from the first occurrence of the re-entered property upwards is marked. |
| `CssEvaluator.Evaluator.Evaluate` | src/m98_css_variables.c:77-100 | Terminates; finished properties stay, the property ends finished and consistent, or a cycle through it is marked. Under a meaning it fails only for want of room; a malformed or unsupported status has a property whose settled substitution is refused so. |
| `CssEvaluator.Evaluator.Range` | src/m98_css_variables.c:101-141 | Unless the property under evaluation was cycle-marked, appends exactly the substitution of the range; under a meaning in which the other properties have room it succeeds exactly if this range has room. A finished table is never changed. |
| `CssEvaluator.Evaluator.Call` | src/m98_css_variables.c:115-138 | Unless cycle-marked, appends exactly the referenced value or the fallback's substitution, with the same condition for success. |
| `CssCompute.EvaluateAll` | src/m98_css_variables.c:77-141 | On success all properties finish; a cycle is marked exactly if the table has no meaning, and otherwise the values are every meaning's; no value takes a token from a marked property. A table with a meaning succeeds exactly if every property has room and otherwise reports a limit. |
| `CssCompute.Compute` | src/m98_css_variables.c:149-182 | The snapshot computed from declarations and a parent is finished, consistent and, without cycles, the declarations' meaning; the status is that of the refused declaration or of the evaluation, with the causes of the previous row. |
| `CssCompute.UnmarkedIsMeaning` | src/m98_css_variables.c:77-141 | Without marks the computed values, ranked by order of finishing, satisfy every property's substitution equation with references strictly going down. |
| `CssCompute.MarkedCountAsAbsent` | src/m98_css_variables.c:77-141 | However cycles overlap, marked properties are invalid and every other value is the substitution of its specified value in an environment from which marked properties are absent. |
| `CssCompute.SetUpIgnoresOrder` | src/m98_css_variables.c:149-182 | Permuting the declarations changes neither whether they are accepted nor the properties they set up. |
| `CssCompute.MeaningIgnoresOrder` | src/m98_css_variables.c:149-182 | A meaning of one table is a meaning of every table with the same properties. |
| `CssCompute.MeaningIsUnique` | src/m98_css_variables.c:77-141 | Two meanings of one table agree. |
| `CssCompute.OrderIsIrrelevant` | src/m98_css_variables.c:149-182 | The same declarations in two orders are accepted alike, and two computed snapshots agree on whether there is a cycle and, without one, on every value. |
| `CssCompute.StatusIgnoresOrder` | src/m98_css_variables.c:149-182 | Two orders of declarations that have a meaning give the same status. |
| `CssCompute.SubstituteValue` | src/m98_css_variables.c:191-202 | The frozen copy of the snapshot is unchanged; the result is the balanced, call-free substitution or its invalidity, and the status is exactly the first refusal: tokenizing, normalizing, want of room, normalizing the result. The text var(name) gives the value of the name, or is invalid without one; with a fallback it gives the fallback instead. |
| `CssDeclared.DeclaredCall` | src/m98_css_variables.c:149-182 | A declared value whose text is var(name) gets the value of the name in the computed snapshot, or is invalid without one or on a cycle. |
| `CssDeclared.DeclaredElse` | src/m98_css_variables.c:149-182 | With a fallback it gets the fallback when the name has no value. |
| `CssDeclared.RoomForOneMore` | src/m98_css_variables.c:152-169 | A declaration acceptable on its own joins a table exactly if it replaces an inherited property, or is new and there are fewer than 64. |
| `CssDeclared.DeclaredWord` | src/m98_css_variables.c:160-177 | A declared word stands for itself; initial is invalid, inherit and unset take the parent's value, revert is refused. |
| `InitOnce.PublishedKept` | ntwin32/initonce.c:27-80 | A done word never changes and at most one result is ever published. |
| `InitOnce.LaterBeginsReturnTheResult` | ntwin32/initonce.c:27-63 | From the first completion on, every begin or execute still in its loop, wherever it stands, returns the published context and nothing else. |
| `InitOnce.NobodyPendingAfterDone` | ntwin32/initonce.c:27-80 | After completion no begin is told to initialize and no new callback starts. |
| `InitOnce.RunPublishesOnce` | ntwin32/initonce.c:27-101 | In every run at most one result is published and every successful answer carries it. |
| `InitOnce.DoneForever` | ntwin32/initonce.c:27-101 | From the first completion on, word and result stay the same in every continuation. |
| `InitOnce.ExclusiveIff` | ntwin32/initonce.c:65-80 | A step keeps exclusive ownership exactly if it is not a valid synchronous completion of the pending word by a thread that was not told to initialize. |
| `InitOnce.CallbacksDoNotOverlap` | ntwin32/initonce.c:82-101 | In every run without such a completion, no two callbacks run at once. |
| `InitOnce.OverlapIff` | ntwin32/initonce.c:65-101 | After such a run, a step makes an overlap reachable, with no further such completion, if and only if a stranger resets an attempt whose owner is not just about to publish an aligned context. |
| `InitOnce.ExecuteNeverOverlaps` | ntwin32/initonce.c:82-101 | In every run without explicit completions no two callbacks overlap. |
| `InitOnce.StrangersBreakExclusion` | ntwin32/initonce.c:65-80 | A concrete run in which one stranger resets a running attempt and two callbacks overlap. |
| `InitOnceCalls.BeginIs` | ntwin32/initonce.c:27-63 | What an undisturbed begin answers and leaves for every word and every flag. |
| `InitOnceCalls.ExecuteIs` | ntwin32/initonce.c:82-101 | What an undisturbed execute answers and leaves, for every word and every outcome of the callback. |
| `InitOnceCalls.CompleteIs` | ntwin32/initonce.c:65-80 | A completion succeeds exactly if the word is marked for its kind, and then publishes or resets. |
| `CoreClock.StepKeeps` | ntwin32/core_clock.c:48-127 | Every access of every caller keeps admission, ownership and stopping invariants. |
| `CoreClock.OpensOnlyWhenFree` | ntwin32/core_clock.c:48-95 | A device is opened only while none is owned or retained and the client is not drained. |
| `CoreClock.OwnershipHolds` | ntwin32/core_clock.c:48-95 | At most one handle is owned; a retained handle is the owned one; outputs change only with success. |
| `CoreClock.StopIsFinal` | ntwin32/core_clock.c:118-127 | Once some stop has returned 0, nothing is owned or retained and nothing is opened, in any continuation. |
| `CoreClock.DrainedIsStopZero` | ntwin32/core_clock.c:118-127 | In every run the client is marked drained exactly if some stop has returned 0. |
| `CoreClockCalls.QueryAlone` | ntwin32/core_clock.c:48-95 | What an undisturbed query answers and leaves, for every client state and every behaviour of the callbacks: the first error wins, and outputs are written only without one. |
| `CoreClockCalls.StoppedMidway` | ntwin32/core_clock.c:60-64 | A stop that comes between the two looks at the flag still turns the query away. |
| `CoreClockCalls.StopAlone` | ntwin32/core_clock.c:118-127 | An undisturbed stop sets the flag, is busy while somebody is admitted, and otherwise closes a retained handle. |
| `HandleTable.StepKeeps` | ntwrapper/core.c:31-142 | Every call keeps the table invariant, and a created handle was never issued before. |
| `HandleTable.ResolvesIff` | ntwrapper/core.c:6-17 | A handle resolves exactly if it was issued and not closed. |
| `HandleTable.ShutdownIff` | ntwrapper/core.c:131-142 | Shutdown succeeds exactly when nothing is open or leased. |
| `HandleTable.HandlesAreDistinct` | ntwrapper/core.c:31-54 | No two creations of a run return the same handle. |
| `HandleTable.GrantsAreBounded` | ntwrapper/core.c:105-130 | Successful waits on an auto-reset event never exceed its initial signal plus the sets. |
| `HandleView.CreateIs` | ntwrapper/core.c:31-54 | An event is created unless every slot is taken or used up; its new handle opens exactly it. |
| `HandleView.EventIs` | ntwrapper/core.c:105-130 | Set, reset, query and wait answer and act as on a map from open handles to events, rights and auto-reset included. |
| `HandleView.CloseIs` | ntwrapper/core.c:94-104 | Closing an open handle takes exactly it away; a second close is refused. |
| `HandleView.ReferenceIs` | ntwrapper/core.c:56-74 | A lease needs a new name, an open handle with the rights and a reference to spare, and changes nothing visible. |
| `HandleView.DereferenceIs` | ntwrapper/core.c:75-93 | A lease is returned exactly once and changes nothing visible. |
| `HandleView.ShutdownIs` | ntwrapper/core.c:131-142 | A shutdown either finds something open or leased and changes nothing, or ends the service. |
| `HandleView.CountsAre` | ntwrapper/core.c:105-130 | Every set counts as a signal and every granted wait as a grant. |
| `HandleContext.Context.CreateEvent` | ntwrapper/core.c:31-54 | The slot scan creates the event as specified. |
| `HandleContext.Context.AddReference` | ntwrapper/core.c:55-74 | Leasing equals the specified step. |
| `HandleContext.Context.DropReference` | ntwrapper/core.c:75-93 | Returning a lease equals the specified step. |
| `HandleContext.Context.CloseHandle` | ntwrapper/core.c:94-104 | Closing equals the specified step. |
| `HandleContext.Context.EventOperation` | ntwrapper/core.c:105-130 | Set, reset, query and wait equal the specified step. |
| `HandleContext.Context.ShutDown` | ntwrapper/core.c:131-142 | Shutdown equals the specified step. |
| `StreamingHash.PaddedIsWhole` | src/bcrypt_shim.c:198-216 | The padded message is a whole number of blocks and begins with the message. |
| `HashPadding.PaddedBytes` | src/bcrypt_shim.c:198-216 | The message, one bit, as few zeros as needed, and the bit length modulo 2^64 in the algorithm's byte order. |
| `HashPadding.BlocksInOrder` | src/bcrypt_shim.c:183-196 | Compression goes block by block from the initial words. |
| `HashPadding.HmacIs` | src/bcrypt_shim.c:360-435 | The keyed hash with its block key and both pads written out byte by byte. |
| `StreamingHash.HashState.Update` | src/bcrypt_shim.c:183-196 | Absorbing bytes in any portions leaves the state standing for the concatenation. |
| `StreamingHash.HashState.Final` | src/bcrypt_shim.c:198-216 | The digest equals the one-shot hash of everything absorbed. |
| `StreamingHash.HashInPieces` | src/bcrypt_shim.c:172-216 | For every split of a message the digest is the one-shot hash of the whole. |
| `StreamingHash.HashObject.HashData` | src/bcrypt_shim.c:391-405 | Accepted unless the object is finished; the message grows by the input. |
| `StreamingHash.HashObject.FinishHash` | src/bcrypt_shim.c:407-435 | Delivers the digest, HMAC when keyed, of exactly the data given; a reusable object starts over, another is finished. |
| `StreamingHash.Registry.Register` | src/bcrypt_shim.c:243-251 | A token is never issued twice; registration fails exactly when tokens run out. |
| `StreamingHash.Registry.Remove` | src/bcrypt_shim.c:253-258 | Removes exactly the token's object, or reports an unknown handle. |
| `RasterCoverage.OrderDoesNotMatter` | src/m98_softpipe_raster.c:42-49 | Coverage is the same for all six vertex orders. |
| `RasterCoverage.EdgeSplits` | src/m98_softpipe_raster.c:42-43 | A sample passes an edge in exactly one of its two directions. |
| `RasterCoverage.NoOverlap` | src/m98_softpipe_raster.c:42-49 | Triangles on opposite sides of a shared edge never cover the same sample. |
| `RasterCoverage.NoGap` | src/m98_softpipe_raster.c:42-49 | A sample inside the other four edges is covered by exactly one of the two. |
| `RasterCoverage.SharedEdgeIsWatertight` | src/m98_softpipe_raster.c:42-49 | Every sample strictly between the ends of the shared edge is covered by exactly one of the two. |
| `RasterCoverage.FanCoversVertexOnce` | src/m98_softpipe_raster.c:42-49 | A sample on the common vertex of a closed fan of triangles is covered by exactly one of them. |
| `RasterCoverage.CompassIsClosed` | src/m98_softpipe_raster.c:42-49 | Four triangles round the origin are an instance of such a fan. |
| `RasterLaws.InteriorIsCovered` | src/m98_softpipe_raster.c:42-49 | Every sample inside the triangle is covered. |
| `RasterLaws.CoveredIsInside` | src/m98_softpipe_raster.c:42-49 | Every covered sample lies in the triangle or on its rim. |
| `RasterLaws.TieRule` | src/m98_softpipe_raster.c:43 | A sample on an edge belongs to the side that a step to the right, or along the edge a step down, leads into. |
| `RasterLaws.DepthRule` | src/m98_softpipe_raster.c:115 | Which depths pass which test. |
| `RasterLaws.BlendRule` | src/m98_softpipe_raster.c:85-89 | Each blended channel is the mean by the two weights, rounded to nearest; alpha is the rounded total. |
| `RasterLaws.BlendEnds` | src/m98_softpipe_raster.c:85-89 | An opaque source replaces the target; a transparent one leaves an opaque target alone. |
| `RasterLaws.BetweenRule` | src/m98_softpipe_raster.c:42-43 | Every proper mean of two vertices lies between them on their edge. |
| `RasterLaws.QuadRule` | src/m98_softpipe_raster.c:106-131 | A quad goes well exactly if its depths are finite and the shader, where it runs, reports no error, has one output, stays within the mask and delivers finite colours. |
| `RasterLaws.ReplyRule` | src/m98_softpipe_raster.c:119-122 | The shader's codes 1 to 7 come back as such; other codes and broken promises are bad output or unsupported. |
| `RasterLaws.FateRule` | src/m98_softpipe_raster.c:109-131 | A covered sample is rejected by the depth test, discarded by the shader, or written. |
| `RasterLaws.ScratchRule` | src/m98_softpipe_raster.c:101-103 | The scratch bytes are eight for every sample. |
| `RasterCoverage.EdgeFits` | src/m98_softpipe_raster.c:42 | Within the coordinate limit the edge function stays far inside 64 bits. |
| `RasterDraw.CoverageMask` | src/m98_softpipe_raster.c:44-49 | The lane loop computes the specified coverage. |
| `RasterDraw.QuadCounts` | src/m98_softpipe_raster.c:95 | Each quad adds exactly its coverage to the count of covered samples. |
| `RasterDraw.FateCounts` | src/m98_softpipe_raster.c:115-130 | Each quad adds exactly its lanes of a fate to the count of that fate. |
| `RasterDraw.FatesPartition` | src/m98_softpipe_raster.c:95-131 | Rejected, discarded and written samples together are the covered ones, none twice. |
| `RasterDraw.TestDepth` | src/m98_softpipe_raster.c:109-116 | Splits the covered lanes into passing and rejected ones; fails exactly if a covered lane has no finite depth. |
| `RasterDraw.WriteLanes` | src/m98_softpipe_raster.c:124-130 | Writes exactly the surviving lanes; fails exactly if one has a colour that is not finite. |
| `RasterDraw.DrawQuads` | src/m98_softpipe_raster.c:106-131 | The first quad in row order that goes wrong gives the status; without one every sample holds its final value and every statistic is the size of its set. |
| `RasterDraw.Execute` | src/m98_softpipe_raster.c:90-136 | The exact status: budget, interpolation, memory, then the first failing quad; on success every sample holds its final value and every statistic is the size of its set, covered being rejected plus discarded plus written; on error surface and statistics are unchanged. |
| `PeRoute.GroupsOfIs` | ntwin32/prepare.py:493-504 | The groups, read one after the other, are the cells in order, each with its library and value. |
| `PeRoute.GroupAll` | ntwin32/prepare.py:493-504 | The grouping loop computes exactly those groups. |
| `PeRoute.StringsTabled` | ntwin32/prepare.py:509-514 | Every library name is stored, terminated, at the address recorded for it. |
| `PeRoute.PayloadOfIs` | ntwin32/prepare.py:508-522 | The payload holds the descriptors, names and lookup tables where the descriptors say. |
| `PeRoute.BuildPayload` | ntwin32/prepare.py:508-522 | The loops compute exactly that payload. |
| `PePrepare.HeaderRead` | ntwin32/prepare.py:535-547 | If the header pointer stays, an output that parses has the input's headers with one more section. |
| `PePrepare.PointerKeptIff` | ntwin32/prepare.py:538-547 | An accepted output has the old header pointer exactly if adding the section size to the initialized-data size leaves bytes 60 to 63 unchanged. |
| `PePrepare.PointerStaysElsewhere` | ntwin32/prepare.py:538-541 | That can fail only for headers at offset 25 to 30. |
| `PePrepare.CountInPointerRefused` | ntwin32/prepare.py:537-547 | An image whose section count shares bytes with the pointer is always refused. |
| `PeSecondHeader.SecondHeaderWins` | ntwin32/prepare.py:459-548 | A concrete image, accepted under the shipped routes, with untouched names and no TLS, load-configuration or delay-import directory, whose pointer moves to a second header: its output still binds KERNEL32.DLL. |
| `PeMoved.MovedBindings` | ntwin32/prepare.py:459-548 | If the output's pointer selects a header that, with all bytes its imports are read from, lies outside the rewritten bytes, the output binds what the input says under that header, nothing rerouted. |
| `PeTheorem.LookupRead` | ntwin32/prepare.py:517-530 | Reading the output through its own section table finds the lookup values written. |
| `PeTheorem.DescriptorRead` | ntwin32/prepare.py:517-530 | Reading the output's descriptors finds the groups and the terminator. |
| `PeTheorem.ImportsRead` | ntwin32/prepare.py:174-221 | If the reader accepts the output and its names are those of the input, it returns exactly the groups. |
| `PeImports.ReadEntries` | ntwin32/prepare.py:174-221 | The entry loop returns the specified entries or refuses. |
| `PeImports.ReadImports` | ntwin32/prepare.py:174-221 | The descriptor loop returns the specified imports or refuses. |
| `PeImports.SameBindings` | ntwin32/prepare.py:493-506 | Flattening the groups gives the input's bindings, rerouted only as planned. |
| `PeRouting.PreparedRoutes` | ntwin32/prepare.py:493-506 | Every import keeps value, symbol and cell, and its library is the provider exactly for served symbols of the source library; an accepted image has one. |
| `PeRouting.FlattenAt` | ntwin32/prepare.py:174-221 | Bindings are numbered descriptor by descriptor, entry by entry. |
| `PeRules.ParseRule` | ntwin32/prepare.py:24-74 | An image is accepted exactly under these header, section and size conditions, by offsets and numbers. |
| `PeRules.SectionRule` | ntwin32/prepare.py:50-68 | Section i of the table: address, the larger of its two sizes, file position and size, flags, by offsets. |
| `PeRules.OffsetRule` | ntwin32/prepare.py:91-97 | Addresses inside the headers are file offsets; others go through the first section that backs all of them. |
| `PeRules.DataRule` | ntwin32/prepare.py:165-166 | Which section flags, bit by bit, make initialized data. |
| `PeRules.IatRule` | ntwin32/prepare.py:159-173 | A cell lies in initialized data and, if the image declares an address table, all four bytes in there. |
| `PeRules.EndRule` | ntwin32/prepare.py:72 | The end of the sections is the largest of their ends. |
| `PeRules.SupportedRule` | ntwin32/prepare.py:459-486 | Which exports, directories, subsystems and flags are refused. |
| `PeRules.FlagsRule` | ntwin32/prepare.py:483-484 | Only the bits 0x40, 0x100, 0x4000 and 0x8000 may be set. |
| `PeRules.StringRule` | ntwin32/prepare.py:147-157 | A string is read exactly if it is ASCII, ends with a zero and has fewer than 4096 characters. |
| `PeRules.SymbolRule` | ntwin32/prepare.py:203-211 | A lookup value imports by ordinal if its top bit is set, else by the name two bytes behind its address. |
| `PeRules.EntriesRule` | ntwin32/prepare.py:192-213 | Entry k stands at the k-th place of the lookup table and belongs to the k-th cell; the table ends with zero. |
| `PeRules.DescriptorsRule` | ntwin32/prepare.py:174-221 | Descriptor i stands at the i-th place, and its numbers lead to its library name, lookup table and cells. |
| `PeImports.PutCellsIs` | ntwin32/prepare.py:531-534 | Every import cell holds its unbound value again and no other byte changes. |
| `PeImports.RestoreCells` | ntwin32/prepare.py:531-534 | The restoring loop computes exactly that image. |
| `PeImports.PatchedIs` | ntwin32/prepare.py:535-545 | The patched fields hold what was written, whatever was written later, and no other byte changes. |
| `PeImports.Prepare` | ntwin32/prepare.py:459-548 | The method computes exactly the specified output or refusal, and what it returns is preserved in the sense of the next row. |
| `PeImports.PreparedPreserves` | ntwin32/prepare.py:459-548 | For every accepted image all bytes outside the listed header fields and import cells are kept and every cell holds its unbound value; if moreover the header pointer stays and the names lie outside the rewritten bytes, the output binds the same symbols at the same addresses in the same order, rerouted only as planned. |

## Left out

ShizukuFS:

- Names are byte strings; UTF-8 and NFC checks are not modelled, and a path arrives as its list of components.
- ShizukuDirectory.EncodeDirectory: does not model the UTF-8 and NFC checks of names.
- ShizukuDirectory.DecodeDirectory: does not model the UTF-8 and NFC checks of names.
- ShizukuCreate.Create: does not model sparse-file preparation and the removal of a partly created file.
- `_prepare_sparse_file`, `_enable_sparse`, `extract_file`, `listdir` formatting, locking and the command line: host input and output.
- The counters that `verify` reports besides its verdict.
- ShizukuCrash.CrashAtomicity: a superblock write torn in the middle is assumed to be refused by its checksum (`TornDetected`), and the starting image is assumed to be the newest on disk, which creation establishes and every run keeps.
- ShizukuRuns.RunRefinesPathMap: reopening after a crash is part of the crash step; two images open on one device at a time are not modelled.

FLS bridge:

- Win32 thread-local storage, `VirtualQuery` checks, structured exceptions and native fibers appear only as their effect on the state; allocation failures are not modelled.
- FlsRuns.StepKeeps: a rundown that starts from a record found under an earlier lock assumes that the record is still on the heap, which the callers of `DeleteFiber` promise.
- FlsBridge.Bridge.SetValue: does not model failure to allocate a thread record.
- FlsBridge.Bridge.ConvertThread: does not model failures of allocation and of the native conversion.
- FlsBridge.Bridge.CreateFiber: does not model argument checks and allocation failure.
- FlsWaiting.KnotForever: supposes that frames of one thread or fiber go on innermost first, as nested calls and the exit of a thread do; that a retirement outside every knot returns once callbacks do is not stated.

Sequenced list:

- SequencedList.Linearizable: says nothing of runs with a swap or fault that comes a positive multiple of 65536 mutations after its snapshot (`StaleSwapIff` says when such a swap succeeds), and takes a pushed list's count to be its length; the exception machinery around the faulting read appears only as its effect.

CSS:

- Counters of parse errors and replaced code points, memory failures and the allocator interface.
- Token values are sequences instead of offsets into a shared pool, and the delimiter of a closing literal is not stored.
- CssCompute.EvaluateAll: for a table without a meaning, a limit status is not tied to its cause.
- CssCompute.Compute: likewise when the declarations have no meaning.

PE:

- PeImports.Prepare: leaves out the checks of TLS, load-configuration and delay-import directories, and that the control-flow-guard flag needs a guard table; they only refuse more images. The refusals for the provider itself, signatures, CLR, subsystem and other DLL characteristics are modelled.
- PeImports.PreparedPreserves: says nothing of the bindings when an import name shares bytes with what is rewritten.
- PeMoved.MovedBindings: says nothing when the other header, or what it leads to, shares bytes with what is rewritten.
- PeTheorem.ImportsRead: supposes that the names read the same in both images; `PreparedPreserves` derives that from where they lie.
- The JSON report and the validation of the route file.

Other components:

- InitOnce: pointer validity and the memory ordering of the individual accesses are not modelled.
- CoreClock.OwnershipHolds: the two output parameters count as one, and argument checks are not modelled.
- Object table: leases are identified by name, so copying a lease structure is not modelled; neither are the lock operations themselves.
- StreamingHash.HashObject.HashData: does not model the flag and null-input checks.
- StreamingHash.HashObject.FinishHash: does not model the flag and null-output checks.
- StreamingHash.HashState.Final: compression functions and initial words are parameters; provider handles, property queries and wiping are not modelled.
- RasterDraw.Execute: plane interpolation, shader and blending are functions over `real` or abstract values; rounding, floating-point state, alignment and argument validation are not modelled.
