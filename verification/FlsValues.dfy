/**
 What a caller sees of its values: allocation, storing, reading, freeing and conversion, said by
 what `FlsGetValue` answers afterwards.
 */
module FlsValues {
  import opened Options
  import opened FlsState
  import opened FlsSteps
  import opened FlsInvariant
  import opened FlsKeeps
  import opened FlsLifecycle
  import opened FlsRuns

  /** What the caller reads at an index: the value in its record, or null without a record. */
  ghost function Reads(s: State, t: nat, fiber: nat, i: nat): nat
    requires t in s.contexts
  {
    var r := CurrentRecord(s, t, fiber);
    if r.Some? && i < |s.heap[r.value].cells| then s.heap[r.value].cells[i].value else 0
  }

  /** A fiber is known by its handle, a plain thread by itself. */
  predicate SameCaller(t: nat, fiber: nat, t': nat, fiber': nat) { fiber == fiber' && (fiber == 0 ==> t == t') }

  ghost predicate Accepts(s: State, t: nat, fiber: nat, i: nat)
    requires t in s.contexts
  {
    && 0 < i < LIMIT && i < |s.slots| && s.slots[i].state == Active && !s.contexts[t].exiting
    && (fiber != 0 ==> CurrentRecord(s, t, fiber).Some?)
  }

  /** The caller's record: its thread's own, or a live one with the fiber's handle. */
  lemma RecordIsOwn(s: State, t: nat, fiber: nat)
    requires Inv(s) && t in s.contexts && CurrentRecord(s, t, fiber).Some?
    ensures var d := s.heap[CurrentRecord(s, t, fiber).value];
      && d.life == Live && |d.cells| == LIMIT
      && if fiber == 0 then d.kind == ThreadRecord && d.owner == t && s.contexts[t].record == CurrentRecord(s, t, fiber)
         else d.kind == FiberRecord && d.fiber == fiber
  {
    assert RecordOk(s, CurrentRecord(s, t, fiber).value) && ContextOk(s, t);
  }

  /** Exactly one cell of one record changed, and what stood there counts as overwritten. */
  ghost predicate PutInto(s: State, s': State, r: nat, i: nat, value: nat) {
    && s'.slots == s.slots && s'.frames == s.frames && i < |s.slots|
    && r in s'.heap && |s'.heap[r].cells| == LIMIT && i < LIMIT
    && s'.heap[r].cells[i].value == value && s'.heap[r].cells[i].generation == s.slots[i].generation
    && s'.heap.Keys == s.heap.Keys + {r}
    && (forall q, j :: q in s.heap && 0 <= j < |s.heap[q].cells| && (q != r || j != i) ==>
          |s'.heap[q].cells| == |s.heap[q].cells| && s'.heap[q].cells[j] == s.heap[q].cells[j])
    && (r !in s.heap ==> forall j :: 0 <= j < LIMIT && j != i ==> s'.heap[r].cells[j].value == 0)
    && (r in s.heap && i < |s.heap[r].cells| && s.heap[r].cells[i].value != 0 ==>
          var stamp := s.heap[r].cells[i].stamp;
          stamp < |s'.history.place| && s'.history.place[stamp] == Overwritten)
  }

  /** A store puts exactly this value into exactly this cell of the caller's record. */
  ghost predicate StoresValue(s: State, s': State, t: nat, fiber: nat, i: nat, value: nat) {
    && t in s.contexts && t in s'.contexts
    && CurrentRecord(s', t, fiber).Some? && PutInto(s, s', CurrentRecord(s', t, fiber).value, i, value)
    && (CurrentRecord(s, t, fiber).Some? ==> CurrentRecord(s', t, fiber) == CurrentRecord(s, t, fiber))
    && (CurrentRecord(s, t, fiber).None? ==> CurrentRecord(s', t, fiber).value !in s.heap)
  }

  lemma {:induction false} FindStays(s: State, s': State, fiber: nat, list: seq<nat>)
    requires forall r :: r in list ==> r in s.heap && r in s'.heap && SameIdentity(s.heap[r], s'.heap[r])
    ensures FindFiber(s', fiber, list) == FindFiber(s, fiber, list)
  {
    if list != [] {
      FindStays(s, s', fiber, list[1..]);
    }
  }

  ghost predicate SameIdentity(a: Record, b: Record) {
    b.kind == a.kind && b.life == a.life && b.fiber == a.fiber && b.owner == a.owner
  }

  lemma FindPasses(s: State, fiber: nat, r: nat, rest: seq<nat>)
    requires r in s.heap && s.heap[r].kind == ThreadRecord
    ensures FindFiber(s, fiber, [r] + rest) == FindFiber(s, fiber, rest)
  {
    assert ([r] + rest)[1..] == rest;
  }

  /** Storing into a record changes nobody's record. */
  lemma StoreRecords(s: State, r: nat, i: nat, value: nat, t: nat, fiber: nat)
    requires Inv(s) && r in s.heap && i < |s.slots| && i < |s.heap[r].cells| && t in s.contexts
    requires s.heap[r].cells[i].value != 0 ==> s.heap[r].cells[i].stamp < |s.history.place|
    ensures CurrentRecord(Store(s, r, i, value), t, fiber) == CurrentRecord(s, t, fiber)
  {
    hide SlotsOk, EpochsOk, FramesOk, RecordsOk, CellsOk, PlacesOk, DeliveriesOk, ContextsOk;
    FindStays(s, Store(s, r, i, value), fiber, s.records);
  }

  /** A new thread record is its thread's and nobody else's. */
  lemma AddRecords(s: State, t: nat, r: nat, t': nat, fiber: nat)
    requires Inv(s) && t in s.contexts && FreshRecord(s, r) && !s.contexts[t].exiting && CurrentRecord(s, t, 0).None? && t' in s.contexts
    ensures var s' := AddThreadRecord(s, t, r);
      t' in s'.contexts && CurrentRecord(s', t', fiber) == if fiber == 0 && t' == t then Some(r) else CurrentRecord(s, t', fiber)
  {
    hide SlotsOk, EpochsOk, FramesOk, RecordsOk, CellsOk, PlacesOk, DeliveriesOk;
    var s' := AddThreadRecord(s, t, r);
    if fiber != 0 {
      assert forall q :: q in s.records ==> q in s.heap && q != r;
      FindStays(s, s', fiber, s.records);
      FindPasses(s', fiber, r, s.records);
    } else {
      assert ContextOk(s, t');
    }
  }

  lemma AddKeeps(s: State, t: nat, r: nat)
    requires Inv(s) && t in s.contexts && FreshRecord(s, r)
    ensures Inv(AddThreadRecord(s, t, r))
  {
    hide Inv;
    LinkRecordKeeps(s, r, ThreadRecord, t, 0);
    SetRecordKeeps(LinkRecord(s, r, NewRecord(ThreadRecord, t, 0)), t, Some(r));
  }

  /** An accepted store puts its value; any other changes nothing. */
  lemma SetStores(s: State, op: Op)
    requires Inv(s) && Enabled(s, op) && op.OpSet?
    ensures if Accepts(s, op.t, op.fiber, op.index) then StoresValue(s, Do(s, op), op.t, op.fiber, op.index, op.value)
            else Do(s, op) == s
  {
    hide SlotsOk, EpochsOk, FramesOk, CellsOk, PlacesOk, DeliveriesOk, ContextsOk, FindFiber, RecordsOk;
    assert |s.slots| == LIMIT;
    if Accepts(s, op.t, op.fiber, op.index) {
      var current := CurrentRecord(s, op.t, op.fiber);
      if current.Some? {
        RecordIsOwn(s, op.t, op.fiber);
        StoreKeeps(s, current.value, op.index, op.value);
        StoreRecords(s, current.value, op.index, op.value, op.t, op.fiber);
      } else {
        AddRecords(s, op.t, op.record, op.t, 0);
        AddKeeps(s, op.t, op.record);
        var added := AddThreadRecord(s, op.t, op.record);
        StoreRecords(added, op.record, op.index, op.value, op.t, 0);
      }
    }
  }

  /** Afterwards the caller reads what it stored, and everybody reads everything else as before. */
  lemma SetThenGet(s: State, op: Op, t: nat, fiber: nat, i: nat)
    requires Inv(s) && Enabled(s, op) && op.OpSet? && Accepts(s, op.t, op.fiber, op.index) && t in s.contexts && i < LIMIT
    ensures t in Do(s, op).contexts
    ensures Reads(Do(s, op), t, fiber, i) ==
      if SameCaller(op.t, op.fiber, t, fiber) && i == op.index then op.value else Reads(s, t, fiber, i)
  {
    hide Inv, CurrentRecord, Do, PutInto;
    OthersRecords(s, op, t, fiber);
    SetStores(s, op);
    RecordSize(s, t, fiber);
    PutReads(s, Do(s, op), op, t, fiber, i);
  }

  lemma RecordSize(s: State, t: nat, fiber: nat)
    requires Inv(s) && t in s.contexts
    ensures CurrentRecord(s, t, fiber).Some? ==> |s.heap[CurrentRecord(s, t, fiber).value].cells| == LIMIT
  {
    if CurrentRecord(s, t, fiber).Some? {
      RecordIsOwn(s, t, fiber);
    }
  }

  /** Everybody keeps the record they had; only the storing thread may get one, and no two callers share one. */
  lemma OthersRecords(s: State, op: Op, t: nat, fiber: nat)
    requires Inv(s) && Enabled(s, op) && op.OpSet? && Accepts(s, op.t, op.fiber, op.index) && t in s.contexts
    ensures t in Do(s, op).contexts && op.t in Do(s, op).contexts
    ensures CurrentRecord(s, t, fiber).Some? ==> CurrentRecord(Do(s, op), t, fiber) == CurrentRecord(s, t, fiber)
    ensures CurrentRecord(s, t, fiber).None? && !SameCaller(op.t, op.fiber, t, fiber) ==> CurrentRecord(Do(s, op), t, fiber).None?
    ensures SameCaller(op.t, op.fiber, t, fiber) ==> CurrentRecord(Do(s, op), t, fiber) == CurrentRecord(Do(s, op), op.t, op.fiber)
    ensures !SameCaller(op.t, op.fiber, t, fiber) && CurrentRecord(s, t, fiber).Some? ==>
      CurrentRecord(Do(s, op), op.t, op.fiber) != CurrentRecord(s, t, fiber)
  {
    hide SlotsOk, EpochsOk, FramesOk, CellsOk, PlacesOk, DeliveriesOk, ContextsOk, FindFiber, RecordsOk;
    var current := CurrentRecord(s, op.t, op.fiber);
    if CurrentRecord(s, t, fiber).Some? {
      RecordIsOwn(s, t, fiber);
    }
    if current.Some? {
      RecordIsOwn(s, op.t, op.fiber);
      StoreKeeps(s, current.value, op.index, op.value);
      StoreRecords(s, current.value, op.index, op.value, op.t, op.fiber);
      StoreRecords(s, current.value, op.index, op.value, t, fiber);
    } else {
      AddRecords(s, op.t, op.record, op.t, 0);
      AddRecords(s, op.t, op.record, t, fiber);
      AddKeeps(s, op.t, op.record);
      var added := AddThreadRecord(s, op.t, op.record);
      StoreRecords(added, op.record, op.index, op.value, op.t, 0);
      StoreRecords(added, op.record, op.index, op.value, t, fiber);
    }
  }

  lemma PutReads(s: State, s': State, op: Op, t: nat, fiber: nat, i: nat)
    requires op.OpSet? && t in s.contexts && t in s'.contexts && op.t in s.contexts && i < LIMIT
    requires StoresValue(s, s', op.t, op.fiber, op.index, op.value)
    requires CurrentRecord(s, t, fiber).Some? ==>
      CurrentRecord(s', t, fiber) == CurrentRecord(s, t, fiber) && |s.heap[CurrentRecord(s, t, fiber).value].cells| == LIMIT
    requires CurrentRecord(s, t, fiber).None? && !SameCaller(op.t, op.fiber, t, fiber) ==> CurrentRecord(s', t, fiber).None?
    requires SameCaller(op.t, op.fiber, t, fiber) ==> CurrentRecord(s', t, fiber) == CurrentRecord(s', op.t, op.fiber)
    requires !SameCaller(op.t, op.fiber, t, fiber) && CurrentRecord(s, t, fiber).Some? ==>
      CurrentRecord(s', op.t, op.fiber) != CurrentRecord(s, t, fiber)
    ensures Reads(s', t, fiber, i) ==
      if SameCaller(op.t, op.fiber, t, fiber) && i == op.index then op.value else Reads(s, t, fiber, i)
  {
    hide FindFiber;
  }

  // ---- Allocating and freeing ----

  /** The lowest free slot becomes active with the callback given, and nobody reads anything from it. */
  lemma AllocGives(s: State, callback: nat, i: nat)
    requires Inv(s) && 0 < i < LIMIT && s.slots[i].state == Free && forall j :: 0 < j < i ==> s.slots[j].state != Free
    ensures var s' := Do(s, OpAlloc(callback));
      && |s'.slots| == LIMIT && s'.slots[i].state == Active && s'.slots[i].callback == callback
      && (forall j :: 0 <= j < LIMIT && j != i ==> s'.slots[j] == s.slots[j])
      && s'.contexts == s.contexts && s'.heap == s.heap && s'.records == s.records && s'.frames == s.frames
      && s'.history.registered == s.history.registered[(i, s'.slots[i].epoch) := callback]
      && (i, s'.slots[i].epoch) !in s.history.registered
      && forall t, fiber :: t in s.contexts ==> Reads(s', t, fiber, i) == 0
  {
    hide EpochsOk, FramesOk, CellsOk, RecordsOk, PlacesOk, DeliveriesOk, ContextsOk, FindFiber;
    var s' := Do(s, OpAlloc(callback));
    assert EpochOk(s, (i, s'.slots[i].epoch)) by { assert EpochsOk(s); EpochsAt(s, (i, s'.slots[i].epoch)); }
    forall t, fiber | t in s.contexts ensures Reads(s', t, fiber, i) == 0 {
      FindStays(s, s', fiber, s.records);
      NothingInFree(s, t, fiber, i);
    }
  }

  lemma EpochsAt(s: State, key: Key)
    requires EpochsOk(s)
    ensures EpochOk(s, key)
  {
  }

  lemma NothingInFree(s: State, t: nat, fiber: nat, i: nat)
    requires Inv(s) && t in s.contexts && i < LIMIT && s.slots[i].state == Free
    ensures Reads(s, t, fiber, i) == 0
  {
    hide Inv, CurrentRecord;
    if Reads(s, t, fiber, i) != 0 {
      HeldIs(s, CurrentRecord(s, t, fiber).value, i);
    }
  }

  lemma HeldIs(s: State, r: nat, i: nat)
    requires Inv(s) && r in s.heap && i < |s.heap[r].cells| && i < LIMIT && s.heap[r].cells[i].value != 0
    ensures s.slots[i].state != Free
  {
    HeldFacts(s, r, i);
  }

  /** Freeing an active slot starts its retirement: from then on nothing is stored or read there. */
  lemma FreeRetires(s: State, op: Op)
    requires Inv(s) && Enabled(s, op) && op.OpFree? && 0 < op.index < LIMIT && s.slots[op.index].state == Active
    ensures var s', k := Do(s, op), s.slots[op.index];
      && |s'.slots| == LIMIT && s'.slots[op.index] == k.(state := Retiring)
      && (forall j :: 0 <= j < LIMIT && j != op.index ==> s'.slots[j] == s.slots[j])
      && s'.heap == s.heap && s'.records == s.records && s'.history == s.history
      && op.t in s'.contexts && s'.contexts[op.t].cleanup == [op.frame] + s.contexts[op.t].cleanup
      && op.frame in s'.frames && s'.frames == s.frames[op.frame := s'.frames[op.frame]]
      && var o := s'.frames[op.frame];
      && o.kind == Retire && o.context == op.t && o.fiber == op.fiber && o.index == op.index && !o.reserved
      && o.generation == k.generation && o.callback == k.callback && o.record == None
      && forall fiber :: !Accepts(s', op.t, fiber, op.index)
  {
    hide Inv;
    Parts(s);
  }

  // ---- The life of a slot ----

  /** From free to active with a callback, to retiring, and back to free with the next generation, which is never 0. */
  ghost predicate SlotAges(k: Slot, k': Slot) {
    match k.state
    case Free => k' == k
    case Active => k'.callback == k.callback && k'.generation == k.generation && (k'.state == Active || k'.state == Retiring)
    case Retiring =>
      if k'.state == Retiring then k'.callback == k.callback && k'.generation == k.generation
      else k'.state == Free && k'.callback == 0 && k'.callbacks == 0
           && k'.generation == if k.generation == 0xFFFF_FFFF then 1 else k.generation + 1
  }

  ghost predicate SlotsAge(s: State, s': State) {
    |s'.slots| == |s.slots| && forall i :: 0 <= i < |s.slots| ==> SlotAges(s.slots[i], s'.slots[i])
  }

  /** What a round does to one slot: it counts a callback, notes the end of the retirement, or frees a slot whose retirement is over. */
  ghost predicate SlotRound(k: Slot, k': Slot) {
    || k' == k || (k.state != Free && k' == k.(callbacks := k'.callbacks, done := k'.done))
    || (k.state == Retiring && SlotAges(k, k') && k'.state == Free)
  }

  ghost predicate SlotsRound(s: State, s': State) {
    |s'.slots| == |s.slots| && forall i :: 0 <= i < |s.slots| ==> SlotRound(s.slots[i], s'.slots[i])
  }

  lemma TwoRounds(s: State, t: State, u: State)
    requires SlotsRound(s, t) && SlotsRound(t, u)
    ensures SlotsAge(s, u)
  {
    forall i | 0 <= i < |s.slots| ensures SlotAges(s.slots[i], u.slots[i]) {
      assert SlotRound(s.slots[i], t.slots[i]) && SlotRound(t.slots[i], u.slots[i]);
    }
  }

  lemma OneSlot(s: State, s': State, i: nat, k: Slot)
    requires i < |s.slots| && s'.slots == s.slots[i := k] && SlotRound(s.slots[i], k)
    ensures SlotsRound(s, s')
  {
  }

  lemma SameSlots(s: State, s': State)
    requires s'.slots == s.slots
    ensures SlotsRound(s, s')
  {
  }

  lemma FinishedAges(k: Slot)
    requires k.state == Retiring && k.generation < WORD
    ensures SlotAges(k, Finished(k.(callbacks := 0))) && SlotAges(k, Finished(k.(done := true, callbacks := 0)))
  {
  }

  lemma ReleaseRound(s: State, f: nat)
    requires Inv(s) && f in s.frames && Releasable(s, f)
    ensures SlotsRound(s, ReleaseReservation(s, f))
  {
    hide Inv, SlotsRound;
    Parts(s);
    var o, s' := s.frames[f], ReleaseReservation(s, f);
    if o.reserved {
      var k := s.slots[o.cbIndex];
      assert k.state != Free && (k.done ==> k.state == Retiring) && k.generation < WORD by {
        assert FrameOk(s, f) && SlotOk(s, o.cbIndex);
      }
      if k.done {
        FinishedAges(k);
      }
      OneSlot(s, s', o.cbIndex, Released(s.slots[o.cbIndex]));
    } else {
      SameSlots(s, s');
    }
  }

  lemma ScanRound(s: State, f: nat)
    requires Inv(s) && f in s.frames && s.frames[f].kind == Retire
    ensures SlotsRound(s, Scan(s, f))
  {
    hide Inv, FirstCandidate, LocalCallbacks, SlotsRound;
    ScanFacts(s, f);
    Parts(s);
    var s', i := Scan(s, f), s.frames[f].index;
    assert s.slots[i].state == Retiring && s.slots[i].generation < WORD by { assert FrameOk(s, f) && SlotOk(s, i); }
    FinishedAges(s.slots[i]);
    if s'.slots == s.slots {
      SameSlots(s, s');
    } else {
      OneSlot(s, s', i, s'.slots[i]);
    }
  }

  lemma RundownRoundIs(s: State, f: nat)
    requires Inv(s) && f in s.frames && s.frames[f].kind == Rundown
    ensures SlotsRound(s, RundownRound(s, f))
  {
    hide Inv, SlotsRound;
    RundownFacts(s, f);
    var r, i := s.frames[f].record.value, s.frames[f].index;
    var s' := RundownRound(s, f);
    if i < LIMIT && RundownCallback(s, r, i) != 0 {
      OneSlot(s, s', i, s.slots[i].(callbacks := s.slots[i].callbacks + 1));
    } else {
      SameSlots(s, s');
    }
  }

  /** Every step but an allocation takes every slot along this way only. */
  lemma SlotsOnlyAge(s: State, op: Op)
    requires Inv(s) && Enabled(s, op) && !op.OpAlloc?
    ensures SlotsAge(s, Do(s, op))
  {
    hide Inv, Scan, RundownRound, SlotsRound, SlotsAge, ReleaseReservation, Convert;
    match op {
      case OpScan(f) =>
        ReleaseKeeps(s, f);
        ReleaseRound(s, f);
        ScanRound(ReleaseReservation(s, f), f);
        TwoRounds(s, ReleaseReservation(s, f), Do(s, op));
      case OpRundown(f) =>
        ReleaseKeeps(s, f);
        ReleaseRound(s, f);
        RundownRoundIs(ReleaseReservation(s, f), f);
        TwoRounds(s, ReleaseReservation(s, f), Do(s, op));
      case OpFree(_, _, i, _) =>
        Parts(s);
        FreeAges(s, Do(s, op), i);
      case _ => OthersAge(s, op);
    }
  }

  lemma FreeAges(s: State, s': State, i: nat)
    requires s'.slots == s.slots || (i < |s.slots| && s.slots[i].state == Active && s'.slots == s.slots[i := s.slots[i].(state := Retiring)])
    ensures SlotsAge(s, s')
  {
  }

  lemma OthersAge(s: State, op: Op)
    requires Inv(s) && Enabled(s, op) && !op.OpAlloc? && !op.OpScan? && !op.OpRundown? && !op.OpFree?
    ensures SlotsAge(s, Do(s, op))
  {
    hide Inv, SlotsAge, Without, Moved;
    FreeAges(s, Do(s, op), 0);
  }

  // ---- The end of a rundown ----

  /**
   Once its cells are cleared, a rundown that waits stays as long as a retirement pins the record; any
   other takes the record off the list, and frees it exactly if nobody pins it.
   */
  lemma RundownEnds(s: State, op: Op)
    requires Inv(s) && Enabled(s, op) && op.OpRundown? && s.frames[op.frame].index == LIMIT
    ensures s.frames[op.frame].record.Some?
    ensures var r, pinned, s' := s.frames[op.frame].record.value, Pinning(s.frames, s.frames[op.frame].record.value) != {}, Do(s, op);
      if s.frames[op.frame].waits && pinned
      then op.frame in s'.frames && s'.records == s.records && s'.heap == s.heap && s'.history == s.history
      else op.frame !in s'.frames && r !in s'.records && (r in s'.history.freed <==> !pinned) && (r in s'.heap <==> pinned)
  {
    hide Inv, Pinning;
    var f := op.frame;
    RundownFacts(s, f);
    var r := s.frames[f].record.value;
    ReleaseKeeps(s, f);
    var released := ReleaseReservation(s, f);
    RundownFacts(released, f);
    Parts(s);
    Parts(released);
    assert RecordOk(s, r) && RecordOk(released, r);
    assert |Pinning(released.frames, r)| == |Pinning(s.frames, r)|;
    assert Pinning(s.frames, r) != {} <==> |Pinning(s.frames, r)| > 0;
    FinishedRecord(released, f);
  }

  lemma FinishedRecord(s: State, f: nat)
    requires Inv(s) && f in s.frames && s.frames[f].kind == Rundown
    ensures s.frames[f].context in s.contexts && s.frames[f].record.Some? && s.frames[f].record.value in s.heap
    ensures s.heap[s.frames[f].record.value].references > 0
    ensures var r, s' := s.frames[f].record.value, FinishRundown(s, f);
      && f !in s'.frames && r !in s'.records && (r in s'.heap <==> s.heap[r].references > 1)
      && (r in s'.history.freed <==> s.heap[r].references == 1)
  {
    hide Inv;
    RundownFacts(s, f);
    Parts(s);
    var r := s.frames[f].record.value;
    assert RecordOk(s, r);
    WithoutIs(s.records, r);
  }

  // ---- Conversion ----

  /** The values a thread reads before it becomes a fiber, the fiber reads afterwards. */
  lemma ConvertKeepsReads(s: State, op: Op, i: nat)
    requires Inv(s) && Enabled(s, op) && op.OpConvert? && !s.contexts[op.t].exiting && op.fiber != 0 && 0 < i < LIMIT
    ensures op.t in Do(s, op).contexts
    ensures Reads(Do(s, op), op.t, op.fiber, i) == Reads(s, op.t, 0, i) && Reads(Do(s, op), op.t, 0, i) == 0
  {
    hide Inv, Convert;
    Parts(s);
    if s.contexts[op.t].record.Some? {
      ConvertMoves(s, op.t, op.fiber, op.record, i);
    } else {
      ConvertEmpty(s, op.t, op.fiber, op.record, i);
    }
  }

  lemma ConvertEmpty(s: State, t: nat, fiber: nat, r: nat, i: nat)
    requires Inv(s) && t in s.contexts && !s.contexts[t].exiting && fiber != 0 && 0 < i < LIMIT && r !in s.heap
    requires s.contexts[t].record.None?
    ensures var s' := Convert(s, t, fiber, r);
      t in s'.contexts && Reads(s', t, fiber, i) == Reads(s, t, 0, i) && Reads(s', t, 0, i) == 0
  {
    hide Inv;
  }

  lemma ConvertMoves(s: State, t: nat, fiber: nat, r: nat, i: nat)
    requires Inv(s) && t in s.contexts && !s.contexts[t].exiting && fiber != 0 && 0 < i < LIMIT && r !in s.heap
    requires s.contexts[t].record.Some?
    ensures var was := s.contexts[t].record.value;
      was in s.heap && s.heap[was].references > 0 && |s.heap[was].cells| == LIMIT
    ensures var s' := Convert(s, t, fiber, r);
      t in s'.contexts && Reads(s', t, fiber, i) == Reads(s, t, 0, i) && Reads(s', t, 0, i) == 0
  {
    hide Without, Moved, SlotsOk, EpochsOk, FramesOk, CellsOk, PlacesOk, DeliveriesOk;
    assert ContextOk(s, t);
    var s', was := Convert(s, t, fiber, r), s.contexts[t].record.value;
    assert RecordOk(s, was);
    WithoutFront(r, s.records, was);
    assert s'.records[0] == r;
  }

  lemma WithoutFront(r: nat, rest: seq<nat>, x: nat)
    requires r != x
    ensures Without([r] + rest, x) == [r] + Without(rest, x)
  {
    assert ([r] + rest)[1..] == rest;
  }
}
