/**
 Runs of the bridge: any interleaving of locked sections by any number of threads and fibers.
 */
module FlsRuns {
  import opened Options
  import opened FlsState
  import opened FlsSteps
  import opened FlsInvariant
  import opened FlsKeeps
  import opened FlsLifecycle

  /** One locked section; fresh names for frames and records are the caller's choice. */
  datatype Op =
    | OpAlloc(callback: nat)
    | OpFree(t: nat, fiber: nat, index: nat, frame: nat)
    | OpDropRecord(frame: nat)
    | OpScan(frame: nat)
    | OpRundown(frame: nat)
    | OpKill(t: nat, fiber: nat, record: nat, nativeDelete: bool, waits: bool, frame: nat)
    | OpSet(t: nat, fiber: nat, index: nat, value: nat, record: nat)
    | OpConvert(t: nat, fiber: nat, record: nat)
    | OpCreateFiber(t: nat, fiber: nat, record: nat)
    | OpEnter(t: nat)
    | OpExit(t: nat)
    | OpLeave(t: nat)

  // ---- Searches ----

  /** The lowest free index from `from` on, or `LIMIT`. */
  function FreeIndex(slots: seq<Slot>, from: nat): (i: nat)
    requires |slots| == LIMIT && from <= LIMIT
    ensures from <= i <= LIMIT && (i < LIMIT ==> slots[i].state == Free)
    ensures forall j :: from <= j < i ==> slots[j].state != Free
    decreases LIMIT - from
  {
    if from == LIMIT || slots[from].state == Free then from else FreeIndex(slots, from + 1)
  }

  /** The first record on the list that still holds a value of the retiring generation. */
  function FirstCandidate(s: State, f: nat, list: seq<nat>): (r: Option<nat>)
    requires f in s.frames
    ensures r.Some? ==> r.value in list && Candidate(s, f, r.value)
    ensures r.None? ==> forall q :: q in list ==> !Candidate(s, f, q)
  {
    if list == [] then None
    else if Candidate(s, f, list[0]) then Some(list[0])
    else FirstCandidate(s, f, list[1..])
  }

  function FindFiber(s: State, fiber: nat, list: seq<nat>): (r: Option<nat>)
    ensures r.Some? ==> r.value in list && r.value in s.heap && s.heap[r.value].kind == FiberRecord
                        && s.heap[r.value].life == Live && s.heap[r.value].fiber == fiber
  {
    if list == [] then None
    else if list[0] in s.heap && s.heap[list[0]].kind == FiberRecord && s.heap[list[0]].life == Live
            && s.heap[list[0]].fiber == fiber then Some(list[0])
    else FindFiber(s, fiber, list[1..])
  }

  /** The record whose values the caller sees; `fiber` is 0 on a thread that is not a fiber. */
  function CurrentRecord(s: State, t: nat, fiber: nat): (r: Option<nat>)
    requires t in s.contexts
    ensures r.Some? ==> r.value in s.heap && s.heap[r.value].life == Live
  {
    if fiber != 0 then FindFiber(s, fiber, s.records)
    else if s.contexts[t].exiting then None
    else match s.contexts[t].record
         case None => None
         case Some(r) => if r in s.heap && s.heap[r].life == Live then Some(r) else None
  }

  // ---- One step ----

  /** What the program and the platform guarantee of a call before it takes the lock. */
  ghost predicate Enabled(s: State, op: Op) {
    match op
    case OpAlloc(_) => true
    case OpFree(t, _, _, f) => t in s.contexts && f !in s.frames
    case OpDropRecord(f) => f in s.frames && s.frames[f].kind == Retire && s.frames[f].record.Some?
    case OpScan(f) => f in s.frames && s.frames[f].kind == Retire && s.frames[f].record.None?
    case OpRundown(f) => f in s.frames && s.frames[f].kind == Rundown
    case OpKill(t, _, r, _, _, f) =>
      && t in s.contexts && f !in s.frames && r in s.heap
      && (s.heap[r].kind == FiberRecord || s.contexts[t].record == Some(r))
    case OpSet(t, _, _, _, r) => t in s.contexts && FreshRecord(s, r)
    case OpConvert(t, _, r) => t in s.contexts && FreshRecord(s, r)
    case OpCreateFiber(t, _, r) => FreshRecord(s, r)
    case OpEnter(t) => t !in s.contexts
    case OpExit(t) => t in s.contexts
    case OpLeave(t) => t in s.contexts && s.contexts[t].cleanup == [] && s.contexts[t].record.None?
  }

  /** A retirement round after it has given its reservation back. */
  ghost function Scan(s: State, f: nat): State
    requires Inv(s) && f in s.frames && s.frames[f].kind == Retire
  {
    ScanFacts(s, f);
    match FirstCandidate(s, f, s.records)
    case Some(r) => Detach(s, f, r)
    case None =>
      var o := s.frames[f];
      if s.slots[o.index].callbacks > LocalCallbacks(s.frames, s.contexts[o.context].cleanup, o.index, o.generation)
      then s
      else FinishRetire(s, f)
  }

  lemma ScanFacts(s: State, f: nat)
    requires Inv(s) && f in s.frames && s.frames[f].kind == Retire
    ensures |s.slots| == LIMIT && s.frames[f].index < LIMIT && s.frames[f].context in s.contexts
    ensures forall g :: g in s.contexts[s.frames[f].context].cleanup ==> g in s.frames
    ensures var r := FirstCandidate(s, f, s.records); r.Some? ==>
      HeldAt(s, r.value, s.frames[f].index) && s.heap[r.value].cells[s.frames[f].index].stamp < |s.history.place|
  {
    assert FrameOk(s, f);
    assert ContextOk(s, s.frames[f].context);
    var r := FirstCandidate(s, f, s.records);
    if r.Some? {
      assert CellOk(s, r.value, s.frames[f].index);
    }
  }

  /** A rundown round after it has given its reservation back. */
  ghost function RundownRound(s: State, f: nat): State
    requires Inv(s) && f in s.frames && s.frames[f].kind == Rundown
  {
    RundownFacts(s, f);
    var o := s.frames[f];
    if o.index < LIMIT then RundownCell(s, f)
    else if o.waits && s.heap[o.record.value].references > 1 then s
    else FinishRundown(s, f)
  }

  lemma RundownFacts(s: State, f: nat)
    requires Inv(s) && f in s.frames && s.frames[f].kind == Rundown
    ensures |s.slots| == LIMIT && s.frames[f].context in s.contexts
    ensures s.frames[f].record.Some? && s.frames[f].record.value in s.heap
    ensures var r := s.frames[f].record.value;
      && s.heap[r].life == Dying && r in s.records && |s.heap[r].cells| == LIMIT && s.heap[r].references > 0
      && (s.frames[f].index < LIMIT && s.heap[r].cells[s.frames[f].index].value != 0 ==>
            s.heap[r].cells[s.frames[f].index].stamp < |s.history.place|)
      && forall j :: 0 <= j < s.frames[f].index <= LIMIT ==> s.heap[r].cells[j].value == 0
    ensures 1 <= s.frames[f].index <= LIMIT
  {
    assert FrameOk(s, f);
    var r := s.frames[f].record.value;
    assert RecordOk(s, r);
    if s.frames[f].index < LIMIT {
      assert CellOk(s, r, s.frames[f].index);
    }
  }

  ghost function SetValue(s: State, t: nat, fiber: nat, i: nat, value: nat, r: nat): State
    requires Inv(s) && t in s.contexts && FreshRecord(s, r)
  {
    if i == 0 || i >= LIMIT || s.slots[i].state != Active || s.contexts[t].exiting then s
    else
      var current := CurrentRecord(s, t, fiber);
      if current.Some? then
        StoreKeeps(s, current.value, i, value);
        Store(s, current.value, i, value)
      else if fiber != 0 then s
      else Store(AddThreadRecord(s, t, r), r, i, value)
  }

  ghost function Do(s: State, op: Op): State
    requires Inv(s) && Enabled(s, op)
  {
    match op
    case OpAlloc(callback) =>
      var i := FreeIndex(s.slots, 1);
      if i == LIMIT then s else Allocate(s, i, callback)
    case OpFree(t, fiber, i, f) =>
      if i == 0 || i >= LIMIT || s.slots[i].state != Active then s else BeginFree(s, t, fiber, i, f)
    case OpDropRecord(f) =>
      DropRecordKeeps(s, f);
      DropRecord(s, f)
    case OpScan(f) =>
      ReleaseKeeps(s, f);
      Scan(ReleaseReservation(s, f), f)
    case OpRundown(f) =>
      ReleaseKeeps(s, f);
      RundownRound(ReleaseReservation(s, f), f)
    case OpKill(t, fiber, r, nativeDelete, waits, f) =>
      if s.heap[r].life != Live then s else BeginRundown(s, t, fiber, r, nativeDelete, waits, f)
    case OpSet(t, fiber, i, value, r) => SetValue(s, t, fiber, i, value, r)
    case OpConvert(t, fiber, r) =>
      if s.contexts[t].exiting then s else
      assert s.contexts[t].record.Some? ==> RecordOk(s, s.contexts[t].record.value) by { assert ContextOk(s, t); }
      Convert(s, t, fiber, r)
    case OpCreateFiber(t, fiber, r) => LinkRecord(s, r, NewRecord(FiberRecord, t, fiber))
    case OpEnter(t) => AddContext(s, t)
    case OpExit(t) => SetExiting(s, t)
    case OpLeave(t) => EndContext(s, t)
  }

  // ---- Every step keeps the invariant ----

  lemma DetachKeeps(s: State, f: nat, r: nat)
    requires Inv(s) && f in s.frames && s.frames[f].kind == Retire && s.frames[f].record.None? && !s.frames[f].reserved
    requires |s.slots| == LIMIT && HeldAt(s, r, s.frames[f].index) && s.frames[f].index < LIMIT
    requires s.heap[r].cells[s.frames[f].index].stamp < |s.history.place|
    ensures Inv(Detach(s, f, r))
  {
    hide Inv, SlotOk, FramesApart;
    Parts(s);
    assert FrameOk(s, f);
    var o := s.frames[f];
    TakeKeeps(s, r, o.index, o.callback);
    PinKeeps(Take(s, r, o.index, o.callback), f, r);
    if o.callback != 0 {
      ReserveKeeps(Pin(Take(s, r, o.index, o.callback), f, r), f, o.index);
    }
  }

  /** When no candidate is left, no value of the retiring epoch is left anywhere. */
  lemma NoCandidate(s: State, f: nat)
    requires Inv(s) && f in s.frames && s.frames[f].kind == Retire && FirstCandidate(s, f, s.records).None?
    ensures forall r: nat :: !HeldAt(s, r, s.frames[f].index)
  {
    forall r: nat | HeldAt(s, r, s.frames[f].index) ensures false {
      HeldFacts(s, r, s.frames[f].index);
      assert FrameOk(s, f);
      assert Candidate(s, f, r);
    }
  }

  lemma FinishRetireKeeps(s: State, f: nat)
    requires Inv(s) && f in s.frames && s.frames[f].kind == Retire && s.frames[f].record.None? && !s.frames[f].reserved
    requires FirstCandidate(s, f, s.records).None?
    ensures s.frames[f].context in s.contexts && s.frames[f].index < |s.slots| && Inv(FinishRetire(s, f))
  {
    hide Inv, FirstCandidate;
    Parts(s);
    assert FrameOk(s, f);
    NoCandidate(s, f);
    UnlinkKeeps(s, f);
    var s', i := UnlinkFrame(s, f), s.frames[f].index;
    forall g | g in s'.frames && s'.frames[g].kind == Retire ensures s'.frames[g].index != i {
      assert FramesApart(s, f, g);
    }
    forall r: nat ensures !HeldAt(s', r, i) {
      assert !HeldAt(s, r, i);
    }
    DoneKeeps(s', i);
  }

  lemma ScanKeeps(s: State, f: nat)
    requires Inv(s) && f in s.frames && s.frames[f].kind == Retire && s.frames[f].record.None? && !s.frames[f].reserved
    ensures Inv(Scan(s, f))
  {
    hide Inv;
    ScanFacts(s, f);
    match FirstCandidate(s, f, s.records)
    case Some(r) => DetachKeeps(s, f, r);
    case None => FinishRetireKeeps(s, f);
  }

  lemma RundownCellKeeps(s: State, f: nat)
    requires Inv(s) && f in s.frames && s.frames[f].kind == Rundown && !s.frames[f].reserved
    requires |s.slots| == LIMIT && s.frames[f].record.Some? && s.frames[f].record.value in s.heap
    requires s.frames[f].index < LIMIT == |s.heap[s.frames[f].record.value].cells|
    requires s.heap[s.frames[f].record.value].cells[s.frames[f].index].value != 0 ==>
               s.heap[s.frames[f].record.value].cells[s.frames[f].index].stamp < |s.history.place|
    ensures Inv(RundownCell(s, f))
  {
    hide Inv;
    var r, i := s.frames[f].record.value, s.frames[f].index;
    var callback := RundownCallback(s, r, i);
    if s.heap[r].cells[i].value != 0 {
      HeldFacts(s, r, i);
      TakeKeeps(s, r, i, callback);
      var taken := Take(s, r, i, callback);
      if callback != 0 {
        ReserveKeeps(taken, f, i);
        AdvanceKeeps(Reserve(taken, f, i), f);
      } else {
        AdvanceKeeps(taken, f);
      }
    } else {
      ClearKeeps(s, r, i);
      AdvanceKeeps(ClearGeneration(s, r, i), f);
    }
  }

  lemma FinishRundownKeeps(s: State, f: nat)
    requires Inv(s) && f in s.frames && s.frames[f].kind == Rundown && !s.frames[f].reserved && s.frames[f].index == LIMIT
    ensures s.frames[f].context in s.contexts && s.frames[f].record.Some? && s.frames[f].record.value in s.heap
    ensures s.heap[s.frames[f].record.value].references > 0 && Inv(FinishRundown(s, f))
  {
    hide Inv;
    RundownFacts(s, f);
    UnlinkKeeps(s, f);
    var s', r := UnlinkFrame(s, f), s.frames[f].record.value;
    assert Buriable(s', r) by {
      Parts(s);
      forall t | t in s'.contexts ensures s'.contexts[t].record != Some(r) {
        assert ContextOk(s, t);
      }
      forall g | g in s'.frames && s'.frames[g].kind == Rundown ensures s'.frames[g].record != Some(r) {
        assert FramesApart(s, f, g);
      }
    }
    BuryKeeps(s', r);
  }

  lemma RundownKeeps(s: State, f: nat)
    requires Inv(s) && f in s.frames && s.frames[f].kind == Rundown && !s.frames[f].reserved
    ensures Inv(RundownRound(s, f))
  {
    hide Inv;
    RundownFacts(s, f);
    if s.frames[f].index < LIMIT {
      RundownCellKeeps(s, f);
    } else {
      FinishRundownKeeps(s, f);
    }
  }

  lemma BeginFreeKeeps(s: State, t: nat, fiber: nat, i: nat, f: nat)
    requires Inv(s) && t in s.contexts && f !in s.frames && 0 < i < |s.slots| && s.slots[i].state == Active
    ensures Inv(BeginFree(s, t, fiber, i, f))
  {
    hide Inv;
    RetiringKeeps(s, i);
    var s' := SetRetiring(s, i);
    var k := s.slots[i];
    Parts(s);
    assert SlotOk(s, i);
    LinkKeeps(s', f, Frame(t, fiber, Retire, i, k.generation, k.callback, None, false, false, 0, 0));
  }

  lemma BeginRundownKeeps(s: State, t: nat, fiber: nat, r: nat, nativeDelete: bool, waits: bool, f: nat)
    requires Inv(s) && Killable(s, t, r) && f !in s.frames
    ensures Inv(BeginRundown(s, t, fiber, r, nativeDelete, waits, f))
  {
    hide Inv;
    KillKeeps(s, t, r, nativeDelete);
    var s' := Kill(s, t, r, nativeDelete);
    Parts(s);
    assert RecordOk(s, r);
    LinkKeeps(s', f, Frame(t, fiber, Rundown, 1, 0, 0, Some(r), waits, false, 0, 0));
  }

  lemma SetKeeps(s: State, t: nat, fiber: nat, i: nat, value: nat, r: nat)
    requires Inv(s) && t in s.contexts && FreshRecord(s, r)
    ensures Inv(SetValue(s, t, fiber, i, value, r))
  {
    hide Inv;
    Parts(s);
    if i == 0 || i >= LIMIT || s.slots[i].state != Active || s.contexts[t].exiting {
    } else if CurrentRecord(s, t, fiber).Some? {
      StoreKeeps(s, CurrentRecord(s, t, fiber).value, i, value);
    } else if fiber == 0 {
      LinkRecordKeeps(s, r, ThreadRecord, t, 0);
      SetRecordKeeps(LinkRecord(s, r, NewRecord(ThreadRecord, t, 0)), t, Some(r));
      StoreKeeps(AddThreadRecord(s, t, r), r, i, value);
    }
  }

  lemma ConvertKeeps(s: State, t: nat, fiber: nat, r: nat)
    requires Inv(s) && t in s.contexts && FreshRecord(s, r)
    ensures s.contexts[t].record.Some? ==>
              && s.contexts[t].record.value in s.heap && s.heap[s.contexts[t].record.value].references > 0
              && |s.heap[s.contexts[t].record.value].cells| == LIMIT
    ensures Inv(Convert(s, t, fiber, r))
  {
    hide Inv;
    Parts(s);
    assert ContextOk(s, t);
    LinkRecordKeeps(s, r, FiberRecord, t, fiber);
    if s.contexts[t].record.Some? {
      var was := s.contexts[t].record.value;
      assert RecordOk(s, was);
      var linked := LinkRecord(s, r, NewRecord(FiberRecord, t, fiber));
      SetRecordKeeps(linked, t, None);
      MoveKeeps(SetRecord(linked, t, None), was, r);
      var moved := MoveCells(SetRecord(linked, t, None), was, r);
      assert Buriable(moved, was) by {
        forall u | u in moved.contexts ensures moved.contexts[u].record != Some(was) {
          assert ContextOk(s, u);
        }
        forall g | g in moved.frames && moved.frames[g].kind == Rundown ensures moved.frames[g].record != Some(was) {
          assert FrameOk(s, g);
        }
      }
      BuryKeeps(moved, was);
    }
  }

  lemma ContextOpKeeps(s: State, op: Op)
    requires Inv(s) && Enabled(s, op) && (op.OpEnter? || op.OpExit? || op.OpLeave?)
    ensures Inv(Do(s, op))
  {
    hide SlotsOk, EpochsOk, FramesOk, RecordsOk, CellsOk, PlacesOk, DeliveriesOk, Shape;
    var s' := Do(s, op);
    forall t | t in s'.contexts ensures ContextOk(s', t) {
      assert t in s.contexts ==> ContextOk(s, t);
    }
    ContextKeeps(s, s');
  }

  lemma StepKeeps(s: State, op: Op)
    requires Inv(s) && Enabled(s, op)
    ensures Inv(Do(s, op))
  {
    hide Inv;
    Parts(s);
    match op
    case OpAlloc(callback) =>
      if FreeIndex(s.slots, 1) < LIMIT {
        AllocateKeeps(s, FreeIndex(s.slots, 1), callback);
      }
    case OpFree(t, fiber, i, f) =>
      if 0 < i < LIMIT && s.slots[i].state == Active {
        BeginFreeKeeps(s, t, fiber, i, f);
      }
    case OpDropRecord(f) =>
      DropRecordKeeps(s, f);
    case OpScan(f) =>
      ReleaseKeeps(s, f);
      ScanKeeps(ReleaseReservation(s, f), f);
    case OpRundown(f) =>
      ReleaseKeeps(s, f);
      RundownKeeps(ReleaseReservation(s, f), f);
    case OpKill(t, fiber, r, nativeDelete, waits, f) =>
      if s.heap[r].life == Live {
        BeginRundownKeeps(s, t, fiber, r, nativeDelete, waits, f);
      }
    case OpSet(t, fiber, i, value, r) =>
      SetKeeps(s, t, fiber, i, value, r);
    case OpConvert(t, fiber, r) =>
      ConvertKeeps(s, t, fiber, r);
    case OpCreateFiber(t, fiber, r) =>
      LinkRecordKeeps(s, r, FiberRecord, t, fiber);
    case _ =>
      ContextOpKeeps(s, op);
  }
}
