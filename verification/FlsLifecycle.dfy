/**
 Linking and unlinking frames and records, and the life of slots and values.
 */
module FlsLifecycle {
  import opened Options
  import opened FlsState
  import opened FlsSteps
  import opened FlsInvariant
  import opened FlsKeeps

  // ---- Lists ----

  lemma {:induction false} WithoutIs(list: seq<nat>, x: nat)
    requires NoDup(list)
    ensures NoDup(Without(list, x)) && forall y :: y in Without(list, x) <==> y in list && y != x
  {
    if list != [] {
      assert NoDup(list[1..]);
      assert list == [list[0]] + list[1..];
      assert list[0] !in list[1..];
      WithoutIs(list[1..], x);
      var rest := Without(list[1..], x);
      if list[0] != x {
        forall i, j | 0 <= i < j < |[list[0]] + rest| ensures ([list[0]] + rest)[i] != ([list[0]] + rest)[j] {
          assert ([list[0]] + rest)[j] in rest;
        }
      }
    }
  }

  // ---- Unlinking a frame ----

  lemma UnlinkCounts(s: State, f: nat)
    requires Inv(s) && f in s.frames && s.frames[f].context in s.contexts
    requires !s.frames[f].reserved && (s.frames[f].kind == Retire ==> s.frames[f].record == None)
    ensures var s' := UnlinkFrame(s, f); SameReserving(s, s') && SamePinning(s, s')
  {
    hide Inv;
    var s' := UnlinkFrame(s, f);
    forall i: nat ensures Reserving(s'.frames, i) == Reserving(s.frames, i) {
      FrameRemoved(s.frames, f, i, 0);
    }
    forall r: nat ensures Pinning(s'.frames, r) == Pinning(s.frames, r) {
      FrameRemoved(s.frames, f, 0, r);
    }
  }

  lemma UnlinkFrames(s: State, f: nat)
    requires Inv(s) && f in s.frames && s.frames[f].context in s.contexts
    ensures FramesOk(UnlinkFrame(s, f)) && ContextsOk(UnlinkFrame(s, f))
  {
    hide EpochsOk, SlotsOk, RecordsOk, CellsOk, PlacesOk, DeliveriesOk, FlsSteps.Without;
    var s', t := UnlinkFrame(s, f), s.frames[f].context;
    assert ContextOk(s, t);
    WithoutIs(s.contexts[t].cleanup, f);
    forall g | g in s'.frames ensures FrameOk(s', g) {
      assert FrameOk(s, g);
    }
    forall g, h | g in s'.frames && h in s'.frames ensures FramesApart(s', g, h) {
      assert FramesApart(s, g, h);
    }
    forall u | u in s'.contexts ensures ContextOk(s', u) {
      assert ContextOk(s, u);
    }
  }

  lemma UnlinkKeeps(s: State, f: nat)
    requires Inv(s) && f in s.frames
    requires !s.frames[f].reserved && (s.frames[f].kind == Retire ==> s.frames[f].record == None)
    ensures s.frames[f].context in s.contexts && Inv(UnlinkFrame(s, f))
  {
    hide Inv, SlotsOk, EpochsOk, RecordsOk, CellsOk, PlacesOk, DeliveriesOk, ContextsOk, Shape;
    Parts(s);
    assert FrameOk(s, f);
    var s' := UnlinkFrame(s, f);
    UnlinkCounts(s, f);
    UnlinkFrames(s, f);
    KeepShape(s, s');
    KeepSlots(s, s');
    KeepHistory(s, s');
    KeepCells(s, s');
    KeepRecords(s, s');
    InvOf(s');
  }

  // ---- Linking a frame ----

  ghost predicate FreshFrame(s: State, f: nat, o: Frame) {
    && f !in s.frames && o.context in s.contexts && !o.reserved
    && (o.kind == Retire ==> o.record == None)
  }

  lemma LinkCounts(s: State, f: nat, o: Frame)
    requires FreshFrame(s, f, o)
    ensures var s' := LinkFrame(s, f, o); SameReserving(s, s') && SamePinning(s, s')
  {
    var s' := LinkFrame(s, f, o);
    forall i: nat ensures Reserving(s'.frames, i) == Reserving(s.frames, i) {
      ReservingUpdate(s.frames, f, o, i);
    }
    forall r: nat ensures Pinning(s'.frames, r) == Pinning(s.frames, r) {
      PinningUpdate(s.frames, f, o, r);
    }
  }

  lemma LinkContexts(s: State, f: nat, o: Frame)
    requires Inv(s) && FreshFrame(s, f, o)
    ensures ContextsOk(LinkFrame(s, f, o))
  {
    hide EpochsOk, SlotsOk, RecordsOk, CellsOk, PlacesOk, DeliveriesOk, FramesOk;
    var s' := LinkFrame(s, f, o);
    forall u | u in s'.contexts ensures ContextOk(s', u) {
      assert ContextOk(s, u);
      if u == o.context {
        var list := s.contexts[u].cleanup;
        assert f !in list;
        forall i, j | 0 <= i < j < |[f] + list| ensures ([f] + list)[i] != ([f] + list)[j] {
          assert ([f] + list)[j] in list;
        }
      }
    }
  }

  lemma LinkFrames(s: State, f: nat, o: Frame)
    requires Inv(s) && FreshFrame(s, f, o) && FrameOk(LinkFrame(s, f, o), f)
    requires forall g :: g in s.frames && s.frames[g].kind == o.kind ==>
               if o.kind == Retire then s.frames[g].index != o.index else s.frames[g].record != o.record
    ensures FramesOk(LinkFrame(s, f, o))
  {
    hide EpochsOk, SlotsOk, RecordsOk, CellsOk, PlacesOk, DeliveriesOk, ContextsOk;
    var s' := LinkFrame(s, f, o);
    forall g | g in s'.frames ensures FrameOk(s', g) {
      if g != f {
        assert FrameOk(s, g);
      }
    }
    forall g, h | g in s'.frames && h in s'.frames ensures FramesApart(s', g, h) {
      if g != f && h != f {
        assert FramesApart(s, g, h);
      }
    }
  }

  lemma LinkKeeps(s: State, f: nat, o: Frame)
    requires Inv(s) && FreshFrame(s, f, o) && |s.slots| == LIMIT && FrameOk(LinkFrame(s, f, o), f)
    requires forall g :: g in s.frames && s.frames[g].kind == o.kind ==>
               if o.kind == Retire then s.frames[g].index != o.index else s.frames[g].record != o.record
    ensures Inv(LinkFrame(s, f, o))
  {
    hide Inv, SlotsOk, EpochsOk, FramesOk, RecordsOk, CellsOk, PlacesOk, DeliveriesOk, ContextsOk, Shape, FrameOk;
    Parts(s);
    var s' := LinkFrame(s, f, o);
    LinkCounts(s, f, o);
    LinkContexts(s, f, o);
    LinkFrames(s, f, o);
    KeepShape(s, s');
    KeepSlots(s, s');
    KeepHistory(s, s');
    KeepCells(s, s');
    KeepRecords(s, s');
    InvOf(s');
  }

  // ---- Slots ----

  lemma RetiringKeeps(s: State, i: nat)
    requires Inv(s) && i < |s.slots| && s.slots[i].state == Active
    ensures Inv(SetRetiring(s, i))
    ensures forall g :: g in s.frames && s.frames[g].kind == Retire ==> s.frames[g].index != i
  {
    hide Inv, EpochsOk, RecordsOk, CellsOk, PlacesOk, DeliveriesOk, ContextsOk, Shape;
    Parts(s);
    var s' := SetRetiring(s, i);
    forall j: nat | j < LIMIT ensures SlotOk(s', j) {
      assert SlotOk(s, j);
    }
    forall g | g in s.frames ensures FrameOk(s', g) {
      assert FrameOk(s, g) && SlotOk(s, i);
    }
    forall g, h | g in s'.frames && h in s'.frames ensures FramesApart(s', g, h) {
      assert FramesApart(s, g, h);
    }
    KeepShape(s, s');
    KeepHistory(s, s');
    KeepCells(s, s');
    KeepContexts(s, s');
    KeepRecords(s, s');
    InvOf(s');
  }

  /** No value of the slot is left and nobody is retiring it. */
  ghost predicate Drained(s: State, i: nat) {
    && i < |s.slots| && s.slots[i].state == Retiring && !s.slots[i].done
    && (forall r: nat :: !HeldAt(s, r, i))
    && forall f :: f in s.frames && s.frames[f].kind == Retire ==> s.frames[f].index != i
  }

  lemma DoneSlots(s: State, i: nat)
    requires Inv(s) && Drained(s, i)
    ensures SlotsOk(MarkDone(s, i)) && EpochsOk(MarkDone(s, i))
  {
    hide FramesOk, RecordsOk, CellsOk, PlacesOk, DeliveriesOk, ContextsOk, HeldAt;
    var s' := MarkDone(s, i);
    forall j: nat | j < LIMIT ensures SlotOk(s', j) {
      assert SlotOk(s, j);
    }
    assert SlotOk(s, i);
    forall key ensures EpochOk(s', key) {
      assert EpochOk(s, key);
    }
  }

  lemma DoneFrames(s: State, i: nat)
    requires Inv(s) && Drained(s, i)
    ensures |MarkDone(s, i).slots| == LIMIT && FramesOk(MarkDone(s, i))
  {
    hide EpochsOk, RecordsOk, CellsOk, PlacesOk, DeliveriesOk, ContextsOk, HeldAt;
    var s' := MarkDone(s, i);
    assert SlotOk(s, i);
    forall g | g in s'.frames ensures FrameOk(s', g) {
      assert FrameOk(s, g);
      if s.frames[g].reserved && s.frames[g].cbIndex == i {
        assert g in Reserving(s.frames, i);
      }
    }
    forall g, h | g in s'.frames && h in s'.frames ensures FramesApart(s', g, h) {
      assert FramesApart(s, g, h);
    }
  }

  lemma DoneCells(s: State, i: nat)
    requires Inv(s) && Drained(s, i)
    ensures |MarkDone(s, i).slots| == LIMIT && CellsOk(MarkDone(s, i))
    ensures PlacesOk(MarkDone(s, i)) && DeliveriesOk(MarkDone(s, i)) && Shape(MarkDone(s, i))
  {
    hide EpochsOk, RecordsOk, SlotsOk, FramesOk, ContextsOk;
    var s' := MarkDone(s, i);
    forall r, j: nat | r in s'.heap ensures CellOk(s', r, j) {
      assert CellOk(s, r, j);
      assert !HeldAt(s, r, i);
    }
    forall n: nat | n < |s'.history.place| ensures PlaceOk(s', n) {
      assert PlaceOk(s, n);
    }
    forall k: nat | k < |s'.history.delivered| ensures DeliveryOk(s', k) {
      assert DeliveryOk(s, k);
    }
  }

  lemma DoneKeeps(s: State, i: nat)
    requires Inv(s) && Drained(s, i)
    ensures Inv(MarkDone(s, i))
  {
    hide Inv, SlotsOk, EpochsOk, FramesOk, RecordsOk, CellsOk, PlacesOk, DeliveriesOk, ContextsOk, Shape, HeldAt;
    Parts(s);
    var s' := MarkDone(s, i);
    DoneSlots(s, i);
    DoneFrames(s, i);
    DoneCells(s, i);
    KeepContexts(s, s');
    KeepRecords(s, s');
    InvOf(s');
  }

  lemma AllocateSlots(s: State, i: nat, callback: nat)
    requires Inv(s) && i < |s.slots| && s.slots[i].state == Free
    ensures var s' := Allocate(s, i, callback); SlotsOk(s') && EpochsOk(s') && DeliveriesOk(s')
  {
    hide FramesOk, RecordsOk, CellsOk, PlacesOk, ContextsOk;
    var s' := Allocate(s, i, callback);
    var key := (i, s.slots[i].epoch + 1);
    assert key !in s.history.registered && key !in s.history.returned by { assert EpochOk(s, key); }
    forall j: nat | j < LIMIT ensures SlotOk(s', j) {
      assert SlotOk(s, j);
    }
    forall k ensures EpochOk(s', k) {
      assert EpochOk(s, k);
    }
    forall k: nat | k < |s'.history.delivered| ensures DeliveryOk(s', k) {
      assert DeliveryOk(s, k);
    }
  }

  lemma AllocateFrames(s: State, i: nat, callback: nat)
    requires Inv(s) && i < |s.slots| && s.slots[i].state == Free
    ensures var s' := Allocate(s, i, callback); |s'.slots| == LIMIT && FramesOk(s') && CellsOk(s') && PlacesOk(s')
  {
    hide RecordsOk, SlotsOk, DeliveriesOk, ContextsOk;
    var s' := Allocate(s, i, callback);
    assert EpochOk(s, (i, s.slots[i].epoch + 1));
    forall g | g in s'.frames ensures FrameOk(s', g) {
      assert FrameOk(s, g);
    }
    forall g, h | g in s'.frames && h in s'.frames ensures FramesApart(s', g, h) {
      assert FramesApart(s, g, h);
    }
    forall r, j: nat | r in s'.heap ensures CellOk(s', r, j) {
      assert CellOk(s, r, j);
    }
    forall n: nat | n < |s'.history.place| ensures PlaceOk(s', n) {
      assert PlaceOk(s, n);
    }
  }

  lemma AllocateKeeps(s: State, i: nat, callback: nat)
    requires Inv(s) && i < |s.slots| && s.slots[i].state == Free
    ensures Inv(Allocate(s, i, callback))
  {
    hide Inv, SlotsOk, EpochsOk, FramesOk, RecordsOk, CellsOk, PlacesOk, DeliveriesOk, ContextsOk;
    Parts(s);
    var s' := Allocate(s, i, callback);
    AllocateSlots(s, i, callback);
    AllocateFrames(s, i, callback);
    KeepContexts(s, s');
    KeepRecords(s, s');
    InvOf(s');
  }

  // ---- Records ----

  ghost predicate FreshRecord(s: State, r: nat) {
    r !in s.heap && r !in s.history.freed
  }

  lemma LinkRecordFrames(s: State, r: nat, kind: RecordKind, owner: nat, fiber: nat)
    requires Inv(s) && FreshRecord(s, r)
    ensures var s' := LinkRecord(s, r, NewRecord(kind, owner, fiber)); FramesOk(s') && ContextsOk(s') && CellsOk(s') && PlacesOk(s')
  {
    hide EpochsOk, SlotsOk, RecordsOk, DeliveriesOk;
    var s' := LinkRecord(s, r, NewRecord(kind, owner, fiber));
    forall g | g in s'.frames ensures FrameOk(s', g) {
      assert FrameOk(s, g);
    }
    forall g, h | g in s'.frames && h in s'.frames ensures FramesApart(s', g, h) {
      assert FramesApart(s, g, h);
    }
    forall t | t in s'.contexts ensures ContextOk(s', t) {
      assert ContextOk(s, t);
    }
    forall q, j: nat | q in s'.heap ensures CellOk(s', q, j) {
      if q != r {
        assert CellOk(s, q, j);
      }
    }
    forall n: nat | n < |s'.history.place| ensures PlaceOk(s', n) {
      assert PlaceOk(s, n);
    }
  }

  lemma LinkRecordRecords(s: State, r: nat, kind: RecordKind, owner: nat, fiber: nat)
    requires Inv(s) && FreshRecord(s, r)
    ensures var s' := LinkRecord(s, r, NewRecord(kind, owner, fiber)); RecordsOk(s') && Shape(s')
  {
    hide EpochsOk, SlotsOk, DeliveriesOk, CellsOk, PlacesOk, ContextsOk;
    var s' := LinkRecord(s, r, NewRecord(kind, owner, fiber));
    assert r !in s.records;
    forall i, j | 0 <= i < j < |s'.records| ensures s'.records[i] != s'.records[j] {
      assert s'.records[j] in s.records;
    }
    NobodyPins(s, r);
    forall q | q in s'.heap ensures RecordOk(s', q) {
      if q != r {
        assert RecordOk(s, q);
      }
    }
  }

  lemma NobodyPins(s: State, r: nat)
    requires |s.slots| == LIMIT && FramesOk(s) && r !in s.heap
    ensures Pinning(s.frames, r) == {}
  {
    forall f | f in s.frames ensures !(s.frames[f].kind == Retire && s.frames[f].record == Some(r)) {
      assert FrameOk(s, f);
    }
  }

  lemma LinkRecordKeeps(s: State, r: nat, kind: RecordKind, owner: nat, fiber: nat)
    requires Inv(s) && FreshRecord(s, r)
    ensures Inv(LinkRecord(s, r, NewRecord(kind, owner, fiber)))
  {
    hide Inv, SlotsOk, EpochsOk, FramesOk, RecordsOk, CellsOk, PlacesOk, DeliveriesOk, ContextsOk, Shape;
    Parts(s);
    var s' := LinkRecord(s, r, NewRecord(kind, owner, fiber));
    LinkRecordFrames(s, r, kind, owner, fiber);
    LinkRecordRecords(s, r, kind, owner, fiber);
    KeepSlots(s, s');
    KeepHistory(s, s');
    InvOf(s');
  }

  /** Nothing holds on to the record except the list and pinning frames. */
  ghost predicate Buriable(s: State, r: nat) {
    && r in s.heap && r in s.records
    && (forall j :: 0 <= j < |s.heap[r].cells| ==> s.heap[r].cells[j].value == 0)
    && (forall t :: t in s.contexts ==> s.contexts[t].record != Some(r))
    && forall f :: f in s.frames && s.frames[f].kind == Rundown ==> s.frames[f].record != Some(r)
  }

  ghost function Unlisted(s: State, r: nat): State
    requires r in s.heap
  {
    s.(records := Without(s.records, r), heap := s.heap[r := s.heap[r].(life := Dead)])
  }

  lemma BuryRecords(s: State, r: nat)
    requires Inv(s) && Buriable(s, r)
    ensures var s' := Unlisted(s, r);
      && Shape(s') && (forall q :: q in s'.heap && q != r ==> RecordOk(s', q))
      && s'.heap[r].references > 0 && RecordOwing(s', r)
  {
    hide SlotsOk, EpochsOk, FramesOk, CellsOk, PlacesOk, DeliveriesOk, ContextsOk;
    var s' := Unlisted(s, r);
    WithoutIs(s.records, r);
    assert RecordOk(s, r);
    forall q | q in s'.heap && q != r ensures RecordOk(s', q) {
      assert RecordOk(s, q);
    }
  }

  lemma BuryRest(s: State, r: nat)
    requires Inv(s) && Buriable(s, r)
    ensures var s' := Unlisted(s, r); FramesOk(s') && ContextsOk(s')
  {
    hide SlotsOk, EpochsOk, RecordsOk, CellsOk, PlacesOk, DeliveriesOk;
    var s' := Unlisted(s, r);
    forall g | g in s'.frames ensures FrameOk(s', g) {
      assert FrameOk(s, g);
    }
    forall g, h | g in s'.frames && h in s'.frames ensures FramesApart(s', g, h) {
      assert FramesApart(s, g, h);
    }
    forall t | t in s'.contexts ensures ContextOk(s', t) {
      assert ContextOk(s, t);
    }
  }

  lemma BuryKeeps(s: State, r: nat)
    requires Inv(s) && Buriable(s, r)
    ensures s.heap[r].references > 0 && Inv(Bury(s, r))
  {
    hide Inv, SlotsOk, EpochsOk, FramesOk, RecordsOk, CellsOk, PlacesOk, DeliveriesOk, ContextsOk, Shape;
    Parts(s);
    var s' := Unlisted(s, r);
    BuryRecords(s, r);
    BuryRest(s, r);
    KeepSlots(s, s');
    KeepHistory(s, s');
    KeepCells(s, s');
    DropKeeps(s', r);
  }

  ghost predicate Killable(s: State, t: nat, r: nat) {
    && t in s.contexts && r in s.heap && s.heap[r].life == Live
    && (s.heap[r].kind == FiberRecord || s.contexts[t].record == Some(r))
  }

  lemma KillFrames(s: State, t: nat, r: nat, nativeDelete: bool)
    requires Inv(s) && Killable(s, t, r)
    ensures FramesOk(Kill(s, t, r, nativeDelete))
    ensures forall f :: f in s.frames && s.frames[f].kind == Rundown ==> s.frames[f].record != Some(r)
  {
    hide SlotsOk, EpochsOk, CellsOk, PlacesOk, DeliveriesOk, ContextsOk, RecordsOk;
    var s' := Kill(s, t, r, nativeDelete);
    forall g | g in s.frames ensures FrameOk(s', g) && (s.frames[g].kind == Rundown ==> s.frames[g].record != Some(r)) {
      assert FrameOk(s, g);
    }
    forall g, h | g in s'.frames && h in s'.frames ensures FramesApart(s', g, h) {
      assert FramesApart(s, g, h);
    }
  }

  lemma KillContexts(s: State, t: nat, r: nat, nativeDelete: bool)
    requires Inv(s) && Killable(s, t, r)
    ensures ContextsOk(Kill(s, t, r, nativeDelete))
  {
    hide SlotsOk, EpochsOk, CellsOk, PlacesOk, DeliveriesOk, FramesOk, RecordsOk;
    var s' := Kill(s, t, r, nativeDelete);
    assert ContextOk(s, t);
    forall u | u in s'.contexts ensures ContextOk(s', u) {
      assert ContextOk(s, u);
    }
  }

  lemma KillRecords(s: State, t: nat, r: nat, nativeDelete: bool)
    requires Inv(s) && Killable(s, t, r)
    ensures RecordsOk(Kill(s, t, r, nativeDelete))
  {
    hide SlotsOk, EpochsOk, CellsOk, PlacesOk, DeliveriesOk, FramesOk, ContextsOk;
    var s' := Kill(s, t, r, nativeDelete);
    forall q | q in s'.heap ensures RecordOk(s', q) {
      assert RecordOk(s, q);
    }
  }

  lemma KillKeeps(s: State, t: nat, r: nat, nativeDelete: bool)
    requires Inv(s) && Killable(s, t, r)
    ensures Inv(Kill(s, t, r, nativeDelete))
    ensures forall f :: f in s.frames && s.frames[f].kind == Rundown ==> s.frames[f].record != Some(r)
  {
    hide Inv, SlotsOk, EpochsOk, FramesOk, ContextsOk, RecordsOk, CellsOk, PlacesOk, DeliveriesOk, Shape;
    Parts(s);
    var s' := Kill(s, t, r, nativeDelete);
    KillFrames(s, t, r, nativeDelete);
    KillContexts(s, t, r, nativeDelete);
    KillRecords(s, t, r, nativeDelete);
    KeepShape(s, s');
    KeepSlots(s, s');
    KeepHistory(s, s');
    KeepCells(s, s');
    InvOf(s');
  }

  lemma SetRecordKeeps(s: State, t: nat, r: Option<nat>)
    requires Inv(s) && t in s.contexts
    requires r.Some? ==> && r.value in s.heap && s.heap[r.value].life == Live
                         && s.heap[r.value].kind == ThreadRecord && s.heap[r.value].owner == t
    ensures Inv(SetRecord(s, t, r))
  {
    hide Inv, SlotsOk, EpochsOk, FramesOk, RecordsOk, CellsOk, PlacesOk, DeliveriesOk, Shape;
    Parts(s);
    var s' := SetRecord(s, t, r);
    forall u | u in s'.contexts ensures ContextOk(s', u) {
      assert ContextOk(s, u);
    }
    KeepShape(s, s');
    KeepFrames(s, s');
    KeepSlots(s, s');
    KeepHistory(s, s');
    KeepCells(s, s');
    KeepRecords(s, s');
    InvOf(s');
  }

  // ---- Values ----

  lemma StoreCells(s: State, r: nat, i: nat, value: nat)
    requires Inv(s) && r in s.heap && s.heap[r].life == Live && 1 <= i < |s.slots| && s.slots[i].state == Active
    requires |s.heap[r].cells| == LIMIT
    requires s.heap[r].cells[i].value != 0 ==> s.heap[r].cells[i].stamp < |s.history.place|
    ensures var s' := Store(s, r, i, value); |s'.slots| == LIMIT && CellsOk(s') && PlacesOk(s')
  {
    hide EpochsOk, FramesOk, RecordsOk, DeliveriesOk, ContextsOk;
    var s' := Store(s, r, i, value);
    assert SlotOk(s, i);
    forall q, j: nat | q in s'.heap ensures CellOk(s', q, j) {
      assert CellOk(s, q, j) && CellOk(s, r, i);
    }
    forall n: nat | n < |s'.history.place| ensures PlaceOk(s', n) {
      assert CellOk(s, r, i);
      if n < |s.history.place| {
        assert PlaceOk(s, n);
      }
    }
  }

  lemma StoreHistory(s: State, r: nat, i: nat, value: nat)
    requires Inv(s) && r in s.heap && i < |s.slots| && |s.heap[r].cells| == LIMIT
    requires s.heap[r].cells[i].value != 0 ==> s.heap[r].cells[i].stamp < |s.history.place|
    ensures var s' := Store(s, r, i, value); EpochsOk(s') && DeliveriesOk(s') && Shape(s')
  {
    hide SlotsOk, FramesOk, RecordsOk, PlacesOk, ContextsOk;
    var s' := Store(s, r, i, value);
    forall key ensures EpochOk(s', key) {
      assert EpochOk(s, key);
    }
    forall k: nat | k < |s'.history.delivered| ensures DeliveryOk(s', k) {
      assert DeliveryOk(s, k);
      assert CellOk(s, r, i);
    }
  }

  lemma StoreFrames(s: State, r: nat, i: nat, value: nat)
    requires Inv(s) && r in s.heap && s.heap[r].life == Live && 1 <= i < |s.slots| && |s.heap[r].cells| == LIMIT
    requires s.heap[r].cells[i].value != 0 ==> s.heap[r].cells[i].stamp < |s.history.place|
    ensures FramesOk(Store(s, r, i, value))
  {
    hide SlotsOk, CellsOk, DeliveriesOk, PlacesOk, EpochsOk, RecordsOk, ContextsOk;
    var s' := Store(s, r, i, value);
    forall g | g in s'.frames ensures FrameOk(s', g) {
      assert FrameOk(s, g);
    }
    forall g, h | g in s'.frames && h in s'.frames ensures FramesApart(s', g, h) {
      assert FramesApart(s, g, h);
    }
  }

  lemma StoreRecords(s: State, r: nat, i: nat, value: nat)
    requires Inv(s) && r in s.heap && s.heap[r].life == Live && 1 <= i < |s.slots| && |s.heap[r].cells| == LIMIT
    requires s.heap[r].cells[i].value != 0 ==> s.heap[r].cells[i].stamp < |s.history.place|
    ensures var s' := Store(s, r, i, value); RecordsOk(s') && ContextsOk(s')
  {
    hide SlotsOk, CellsOk, DeliveriesOk, PlacesOk, EpochsOk, FramesOk;
    var s' := Store(s, r, i, value);
    forall q | q in s'.heap ensures RecordOk(s', q) {
      assert RecordOk(s, q);
    }
    forall t | t in s'.contexts ensures ContextOk(s', t) {
      assert ContextOk(s, t);
    }
  }

  lemma StoreKeeps(s: State, r: nat, i: nat, value: nat)
    requires Inv(s) && r in s.heap && s.heap[r].life == Live && 1 <= i < |s.slots| && s.slots[i].state == Active
    ensures |s.heap[r].cells| == LIMIT
    ensures s.heap[r].cells[i].value != 0 ==> s.heap[r].cells[i].stamp < |s.history.place|
    ensures Inv(Store(s, r, i, value))
  {
    hide Inv, SlotsOk, EpochsOk, FramesOk, PlacesOk, DeliveriesOk, ContextsOk, Shape;
    Parts(s);
    assert RecordOk(s, r) && CellOk(s, r, i);
    var s' := Store(s, r, i, value);
    StoreCells(s, r, i, value);
    StoreHistory(s, r, i, value);
    StoreFrames(s, r, i, value);
    StoreRecords(s, r, i, value);
    KeepSlots(s, s');
    InvOf(s');
  }

  lemma MoveValues(s: State, from: nat, to: nat)
    requires Inv(s) && from in s.heap && to in s.heap && from != to
    requires |s.heap[from].cells| == |s.heap[to].cells| == LIMIT
    requires forall j :: 0 <= j < |s.heap[to].cells| ==> s.heap[to].cells[j].value == 0
    ensures var s' := MoveCells(s, from, to); |s'.slots| == LIMIT && CellsOk(s') && PlacesOk(s') && DeliveriesOk(s')
  {
    hide SlotsOk, FramesOk, EpochsOk, ContextsOk;
    var s' := MoveCells(s, from, to);
    assert RecordOk(s, from) && RecordOk(s, to);
    forall q, j: nat | q in s'.heap ensures CellOk(s', q, j) {
      assert CellOk(s, q, j) && CellOk(s, from, j);
    }
    forall n: nat | n < |s'.history.place| ensures PlaceOk(s', n) {
      assert PlaceOk(s, n);
    }
    forall k: nat | k < |s'.history.delivered| ensures DeliveryOk(s', k) {
      assert DeliveryOk(s, k);
    }
  }

  lemma MoveFrames(s: State, from: nat, to: nat)
    requires Inv(s) && from in s.heap && to in s.heap && from != to
    requires |s.heap[from].cells| == |s.heap[to].cells| == LIMIT
    requires s.heap[from].life == Live && s.heap[to].life == Live
    ensures FramesOk(MoveCells(s, from, to))
  {
    hide SlotsOk, CellsOk, PlacesOk, DeliveriesOk, EpochsOk, RecordsOk, ContextsOk;
    var s' := MoveCells(s, from, to);
    forall g | g in s'.frames ensures FrameOk(s', g) {
      assert FrameOk(s, g);
    }
    forall g, h | g in s'.frames && h in s'.frames ensures FramesApart(s', g, h) {
      assert FramesApart(s, g, h);
    }
  }

  lemma MoveRecords(s: State, from: nat, to: nat)
    requires Inv(s) && from in s.heap && to in s.heap && from != to
    requires |s.heap[from].cells| == |s.heap[to].cells| == LIMIT
    requires s.heap[from].life == Live && s.heap[to].life == Live
    ensures var s' := MoveCells(s, from, to); RecordsOk(s') && ContextsOk(s')
  {
    hide SlotsOk, CellsOk, PlacesOk, DeliveriesOk, EpochsOk, FramesOk;
    var s' := MoveCells(s, from, to);
    assert RecordOk(s, from) && RecordOk(s, to);
    forall q | q in s'.heap ensures RecordOk(s', q) {
      assert RecordOk(s, q);
    }
    forall t | t in s'.contexts ensures ContextOk(s', t) {
      assert ContextOk(s, t);
    }
  }

  lemma MoveKeeps(s: State, from: nat, to: nat)
    requires Inv(s) && from in s.heap && to in s.heap && from != to
    requires s.heap[from].life == Live && s.heap[to].life == Live
    requires forall j :: 0 <= j < |s.heap[to].cells| ==> s.heap[to].cells[j].value == 0
    ensures |s.heap[from].cells| == |s.heap[to].cells| == LIMIT && Inv(MoveCells(s, from, to))
  {
    hide Inv, SlotsOk, FramesOk, CellsOk, PlacesOk, DeliveriesOk, ContextsOk;
    Parts(s);
    assert RecordOk(s, from) && RecordOk(s, to);
    var s' := MoveCells(s, from, to);
    MoveValues(s, from, to);
    MoveFrames(s, from, to);
    MoveRecords(s, from, to);
    KeepSlots(s, s');
    forall key ensures EpochOk(s', key) {
      assert EpochOk(s, key);
    }
    InvOf(s');
  }

  // ---- Thread contexts ----

  function AddContext(s: State, t: nat): State {
    s.(contexts := s.contexts[t := Context(None, false, [])])
  }

  function SetExiting(s: State, t: nat): State
    requires t in s.contexts
  {
    s.(contexts := s.contexts[t := s.contexts[t].(exiting := true)])
  }

  function EndContext(s: State, t: nat): State {
    s.(contexts := s.contexts - {t})
  }

  lemma ContextKeeps(s: State, s': State)
    requires Inv(s) && s' == s.(contexts := s'.contexts) && ContextsOk(s')
    requires forall t :: t in s.contexts && s.contexts[t].cleanup != [] ==>
               t in s'.contexts && s'.contexts[t].cleanup == s.contexts[t].cleanup
    ensures Inv(s')
  {
    hide Inv, SlotsOk, EpochsOk, RecordsOk, CellsOk, PlacesOk, DeliveriesOk, ContextsOk, Shape;
    Parts(s);
    forall f | f in s'.frames ensures FrameOk(s', f) {
      assert FrameOk(s, f);
    }
    forall g, h | g in s'.frames && h in s'.frames ensures FramesApart(s', g, h) {
      assert FramesApart(s, g, h);
    }
    KeepShape(s, s');
    KeepSlots(s, s');
    KeepHistory(s, s');
    KeepCells(s, s');
    KeepRecords(s, s');
    InvOf(s');
  }
}
