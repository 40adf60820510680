/**
 Whole runs of the filesystem: any sequence of completed calls, failed calls, and crashes
 in the middle of a call followed by reopening the image.
 */
module ShizukuRuns {
  import opened Options
  import opened ShizukuFormat
  import opened ShizukuTree
  import opened ShizukuImage
  import opened ShizukuCrash
  import opened ShizukuTransaction
  import opened ShizukuUpdates

  /** What is safely on disk, the writes issued since the last flush, and the opened image. */
  datatype World = World(stable: Disk, pending: seq<Event>, img: Img)
  {
    ghost function Disk(): Disk { Apply(stable, pending) }
  }

  /** The tree `ns` is what the stable disk holds, and pending writes only touch free blocks. */
  ghost predicate Holds(w: World, ns: Nodes) {
    && WellFormed(w.stable, w.img, ns) && Clean(w.stable, w.img)
    && DataLog(w.stable, w.img, w.pending)
  }

  /** One `put`, `mkdir` or `remove` and how it would end if nothing went wrong. */
  datatype Call = Call(path: Path, item: Option<Item>, status: Status, t: Trace, log: seq<Event>, end: Snapshot)

  ghost predicate CallFrom(w: World, c: Call) {
    Outcome(Snapshot(w.Disk(), w.img, c.log), c.end, c.status, c.t, c.path, c.item)
  }

  ghost predicate WholeBlocks(img: Img) {
    img.super.slot < 2 && (|img.bitmap| + |img.inodes|) % BLOCK_SIZE == 0
  }

  /**
   Everything issued to the device since the last flush before the call. A committed image
   always consists of whole blocks; `CommitFromStable` shows that the tail is there.
   */
  ghost function Events(w: World, c: Call): seq<Event> {
    if c.status == Done && WholeBlocks(c.end.img) then w.pending + c.t.data + CommitTail(c.end.img)
    else w.pending + c.t.data
  }

  datatype Step = Ran(call: Call) | Crashed(call: Call, issued: nat, found: Disk)

  ghost predicate CrashedIn(w: World, c: Call, issued: nat, found: Disk) {
    && CallFrom(w, c) && issued <= |Events(w, c)| && |w.stable| >= MIN_BLOCKS
    && CrashDisk(w.stable, Events(w, c), issued, found)
    && TornDetected(w.stable, Events(w, c), issued, found)
  }

  ghost predicate StepTo(w: World, s: Step, w': World) {
    match s
    case Ran(c) =>
      && CallFrom(w, c)
      && w' == if c.status == Done then World(c.end.disk, [], c.end.img) else World(w.stable, w.pending + c.t.data, w.img)
    case Crashed(c, issued, found) =>
      CrashedIn(w, c, issued, found) && Open(found) == Opened(w'.img) && w' == World(found, [], w'.img)
  }

  // ---- One step ----

  lemma PendingKeepsTree(w: World, ns: Nodes)
    requires Holds(w, ns)
    ensures WellFormed(w.Disk(), w.img, ns)
  {
    hide WellFormed, OpenSlot, DataLog;
    FailureKeepsTree(Snapshot(w.stable, w.img, []), Snapshot(w.Disk(), w.img, [] + w.pending), Trace(ns, ns, w.pending), ns);
  }

  /** The call saw the tree that the world holds. */
  lemma CallSees(w: World, ns: Nodes, c: Call)
    requires Holds(w, ns) && CallFrom(w, c) && c.status == Done
    ensures c.t.before == ns
  {
    hide WellFormed, OpenSlot, DataLog, PathUpdated;
    PendingKeepsTree(w, ns);
    NodesUnique(w.Disk(), w.img, ns, c.t.before);
  }

  lemma DataLogJoin(d: Disk, d': Disk, img: Img, a: seq<Event>, b: seq<Event>)
    requires DataLog(d, img, a) && DataLog(d', img, b) && |d'| == |d|
    ensures DataLog(d, img, a + b)
  {
    forall j | 0 <= j < |a + b| ensures FreeWrite(d, img, (a + b)[j]) {
      if j < |a| {
        assert FreeWrite(d, img, a[j]);
      } else {
        assert FreeWrite(d', img, b[j - |a|]);
      }
    }
  }

  /** Counted from the stable disk, a call that commits is one commit sequence. */
  lemma CommitFromStable(w: World, ns: Nodes, c: Call)
    requires Holds(w, ns) && CallFrom(w, c) && c.status == Done
    ensures CommitLog(w.stable, w.img, c.end.img, w.pending + c.t.data, Events(w, c))
    ensures WellFormed(Apply(w.stable, w.pending + c.t.data), c.end.img, c.t.after)
    ensures Apply(w.stable, Events(w, c)) == c.end.disk
  {
    hide WellFormed, OpenSlot, DataLog, PathUpdated, Apply, CommitTail, SuperValid;
    LayoutOf(w.stable, w.img, ns);
    assert |w.Disk()| == |w.stable|;
    DataLogJoin(w.stable, w.Disk(), w.img, w.pending, c.t.data);
    ApplyConcat(w.stable, w.pending, c.t.data);
    ApplyConcat(w.stable, w.pending, c.t.data + CommitTail(c.end.img));
    assert w.pending + c.t.data + CommitTail(c.end.img) == w.pending + (c.t.data + CommitTail(c.end.img));
    assert Layout(w.stable, c.end.img);
  }

  /** A call that runs to its end leaves a consistent world with its own tree. */
  lemma RanHolds(w: World, ns: Nodes, c: Call, w': World)
    requires Holds(w, ns) && StepTo(w, Ran(c), w')
    ensures c.status == Done ==> c.t.before == ns && Holds(w', c.t.after)
    ensures c.status != Done ==> Holds(w', ns)
    ensures w'.Disk() == c.end.disk && w'.img == c.end.img
  {
    hide WellFormed, OpenSlot, PathUpdated, CommitTail, Clean;
    if c.status == Done {
      CallSees(w, ns, c);
      assert CommittedClean(c.end.disk, c.end.img, c.t.after) by { CommittedIsClean(w, c); }
    } else {
      DataLogJoin(w.stable, w.Disk(), w.img, w.pending, c.t.data);
      ApplyConcat(w.stable, w.pending, c.t.data);
    }
  }

  ghost predicate CommittedClean(disk: Disk, img: Img, ns: Nodes) {
    Clean(disk, img) && WellFormed(disk, img, ns)
  }

  lemma CommittedIsClean(w: World, c: Call)
    requires CallFrom(w, c) && c.status == Done
    ensures CommittedClean(c.end.disk, c.end.img, c.t.after)
  {
    hide WellFormed, Clean, PathUpdated, Published;
  }

  /**
   After a crash at any point of any call the image opens, and what it opens to is exactly
   the tree before the call or, if the call was going to succeed, exactly the tree after it.
   */
  lemma CrashedHolds(w: World, ns: Nodes, c: Call, issued: nat, found: Disk)
    requires Holds(w, ns) && CrashedIn(w, c, issued, found)
    ensures Open(found).Opened?
    ensures var w' := World(found, [], Open(found).img);
      Holds(w', ns) || (c.status == Done && c.t.before == ns && Holds(w', c.t.after))
  {
    hide WellFormed, OpenSlot, PathUpdated, CommitTail, Apply, Clean, Open, CommittedTo, DataLog, FromBlock;
    if c.status == Done {
      CallSees(w, ns, c);
      CommitFromStable(w, ns, c);
      CrashAtomicity(w.stable, w.img, ns, c.end.img, c.t.after, w.pending + c.t.data, Events(w, c), issued, found);
      if Clean(found, w.img) && WellFormed(found, w.img, ns) {
        OpensTo(found, w.img, ns);
      } else {
        OpensTo(found, c.end.img, c.t.after);
      }
    } else {
      DataLogJoin(w.stable, w.Disk(), w.img, w.pending, c.t.data);
      AbortAtomicity(w.stable, w.img, ns, w.pending + c.t.data, issued, found);
      OpensTo(found, w.img, ns);
    }
  }

  lemma OpensTo(found: Disk, img: Img, ns: Nodes)
    requires Clean(found, img) && WellFormed(found, img, ns)
    ensures Open(found) == Opened(img) && Holds(World(found, [], img), ns)
  {
    hide WellFormed, Clean, Open;
    OpenOfClean(found, img);
  }

  // ---- Whole runs ----

  datatype Update = Update(path: Path, item: Option<Item>)

  /** The path map after a history of updates. */
  ghost function Replay(ns: Nodes, history: seq<Update>, q: Path): Option<Item> {
    if history == [] then View(ns, q)
    else
      var last := history[|history| - 1];
      if last.path == q then last.item else Replay(ns, history[..|history| - 1], q)
  }

  /** What one step may add to the history: success its own update, failure nothing, a crash one or the other. */
  ghost predicate Effect(s: Step, added: seq<Update>) {
    match s
    case Ran(c) => added == if c.status == Done then [Update(c.path, c.item)] else []
    case Crashed(c, _, _) => added == [] || (c.status == Done && added == [Update(c.path, c.item)])
  }

  ghost predicate Run(ws: seq<World>, steps: seq<Step>) {
    && |ws| == |steps| + 1
    && forall i :: 0 <= i < |steps| ==> StepTo(ws[i], steps[i], ws[i + 1])
  }

  ghost predicate Shows(ns0: Nodes, history: seq<Update>, ns: Nodes) {
    forall q :: View(ns, q) == Replay(ns0, history, q)
  }

  ghost function Flatten(parts: seq<seq<Update>>): seq<Update> {
    if parts == [] then [] else Flatten(parts[..|parts| - 1]) + parts[|parts| - 1]
  }

  lemma ShowsUpdate(ns0: Nodes, history: seq<Update>, before: Nodes, after: Nodes, u: Update)
    requires Shows(ns0, history, before) && PathUpdated(before, after, u.path, u.item)
    ensures Shows(ns0, history + [u], after)
  {
    hide View;
    assert (history + [u])[..|history|] == history;
  }

  /** One step from a consistent world, with the part of the history it adds. */
  lemma StepHolds(w: World, ns: Nodes, s: Step, w': World, ns0: Nodes, history: seq<Update>)
    returns (ns': Nodes, added: seq<Update>)
    requires Holds(w, ns) && StepTo(w, s, w') && Shows(ns0, history, ns)
    ensures Holds(w', ns') && Effect(s, added) && Shows(ns0, history + added, ns')
  {
    hide Holds, Shows, Open, OpenSlot, Succeeds, Fails, PathUpdated;
    var c := s.call;
    var moved: bool;
    match s {
      case Ran(_) =>
        RanHolds(w, ns, c, w');
        moved := c.status == Done;
      case Crashed(_, issued, found) =>
        CrashedHolds(w, ns, c, issued, found);
        moved := !Holds(w', ns);
    }
    if moved {
      ns', added := c.t.after, [Update(c.path, c.item)];
      ShowsUpdate(ns0, history, ns, ns', added[0]);
    } else {
      ns', added := ns, [];
      assert history + [] == history;
    }
  }

  /**
   After any run the image is well formed, and its path map is the initial one with exactly
   the successful updates replayed in order; an interrupted update is there in full or not at all.
   */
  lemma {:induction false} RunRefinesPathMap(ws: seq<World>, steps: seq<Step>, ns0: Nodes)
    returns (ns: Nodes, parts: seq<seq<Update>>)
    requires Run(ws, steps) && Holds(ws[0], ns0)
    ensures |parts| == |steps| && forall i :: 0 <= i < |steps| ==> Effect(steps[i], parts[i])
    ensures Holds(ws[|steps|], ns) && Shows(ns0, Flatten(parts), ns)
    decreases |steps|
  {
    hide Holds, StepTo, Effect, View;
    if steps == [] {
      return ns0, [];
    }
    var n := |steps| - 1;
    var before, front := RunRefinesPathMap(ws[..n + 1], steps[..n], ns0);
    var added;
    ns, added := StepHolds(ws[n], before, steps[n], ws[n + 1], ns0, Flatten(front));
    parts := front + [added];
    assert parts[..n] == front;
  }
}
