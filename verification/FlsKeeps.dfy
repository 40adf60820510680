/**
 The small operations that locked sections are made of: each keeps the invariant.
 */
module FlsKeeps {
  import opened Options
  import opened FlsState
  import opened FlsSteps
  import opened FlsInvariant

  // ---- Parts of the state that an operation leaves alone ----

  ghost predicate SameReserving(s: State, s': State) {
    forall i: nat :: Reserving(s'.frames, i) == Reserving(s.frames, i)
  }

  ghost predicate SamePinning(s: State, s': State) {
    forall r: nat :: Pinning(s'.frames, r) == Pinning(s.frames, r)
  }

  ghost predicate SameCells(s: State, s': State) {
    s'.heap.Keys == s.heap.Keys && forall r :: r in s.heap ==> s'.heap[r].cells == s.heap[r].cells
  }

  /** Records as the frames and contexts see them. */
  ghost predicate SameLives(s: State, s': State) {
    && s'.heap.Keys == s.heap.Keys
    && forall r :: r in s.heap ==>
         && s'.heap[r].life == s.heap[r].life && s'.heap[r].kind == s.heap[r].kind && s'.heap[r].owner == s.heap[r].owner
         && |s'.heap[r].cells| == |s.heap[r].cells|
         && forall j :: 0 <= j < |s.heap[r].cells| && s.heap[r].cells[j].value == 0 ==> s'.heap[r].cells[j].value == 0
  }

  lemma KeepSlots(s: State, s': State)
    requires SlotsOk(s) && s'.slots == s.slots && SameReserving(s, s')
    requires s'.history.registered == s.history.registered && s'.history.returned == s.history.returned
    ensures SlotsOk(s')
  {
    forall i: nat | i < |s'.slots| ensures SlotOk(s', i) {
      assert SlotOk(s, i);
    }
  }

  lemma KeepHistory(s: State, s': State)
    requires EpochsOk(s) && DeliveriesOk(s) && |s'.slots| == |s.slots|
    requires forall i :: 0 <= i < |s.slots| ==> s'.slots[i].epoch >= s.slots[i].epoch
    requires s'.history.(freed := s.history.freed) == s.history
    ensures EpochsOk(s') && DeliveriesOk(s')
  {
    forall key ensures EpochOk(s', key) {
      assert EpochOk(s, key);
    }
    forall k: nat | k < |s'.history.delivered| ensures DeliveryOk(s', k) {
      assert DeliveryOk(s, k);
    }
  }

  lemma KeepCells(s: State, s': State)
    requires |s.slots| == |s'.slots| == LIMIT && CellsOk(s) && PlacesOk(s) && SameCells(s, s')
    requires forall i :: 0 <= i < LIMIT ==>
      && s'.slots[i].epoch == s.slots[i].epoch && s'.slots[i].generation == s.slots[i].generation
      && (s.slots[i].state != Free ==> s'.slots[i].state != Free) && s'.slots[i].done == s.slots[i].done
    requires s'.history.(freed := {}, returned := {}) == s.history.(freed := {}, returned := {})
    ensures CellsOk(s') && PlacesOk(s')
  {
    forall r, i: nat | r in s'.heap ensures CellOk(s', r, i) {
      assert CellOk(s, r, i);
    }
    forall n: nat | n < |s'.history.place| ensures PlaceOk(s', n) {
      assert PlaceOk(s, n);
    }
  }

  lemma KeepContexts(s: State, s': State)
    requires ContextsOk(s) && s'.contexts == s.contexts && SameLives(s, s')
    requires forall f :: f in s.frames ==> f in s'.frames && s'.frames[f].context == s.frames[f].context
    ensures ContextsOk(s')
  {
    forall t | t in s'.contexts ensures ContextOk(s', t) {
      assert ContextOk(s, t);
    }
  }

  lemma KeepRecords(s: State, s': State)
    requires RecordsOk(s) && SameLives(s, s') && SamePinning(s, s')
    requires s'.records == s.records && s'.history.freed == s.history.freed
    requires forall r :: r in s.heap ==> s'.heap[r].references == s.heap[r].references
    ensures RecordsOk(s')
  {
    forall r | r in s'.heap ensures RecordOk(s', r) {
      assert RecordOk(s, r);
    }
  }

  lemma KeepFrames(s: State, s': State)
    requires |s.slots| == |s'.slots| == LIMIT && FramesOk(s) && s'.frames == s.frames && SameLives(s, s')
    requires forall t :: t in s.contexts ==> t in s'.contexts && s'.contexts[t].cleanup == s.contexts[t].cleanup
    requires forall i :: 0 <= i < LIMIT ==>
      && s'.slots[i].(callbacks := 0, epoch := 0) == s.slots[i].(callbacks := 0, epoch := 0)
    ensures FramesOk(s')
  {
    forall f | f in s'.frames ensures FrameOk(s', f) {
      assert FrameOk(s, f);
    }
    forall f, g | f in s'.frames && g in s'.frames ensures FramesApart(s', f, g) {
      assert FramesApart(s, f, g);
    }
  }

  lemma Parts(s: State)
    requires Inv(s)
    ensures |s.slots| == LIMIT
    ensures Shape(s) && SlotsOk(s) && EpochsOk(s) && FramesOk(s) && RecordsOk(s) && CellsOk(s)
    ensures PlacesOk(s) && DeliveriesOk(s) && ContextsOk(s)
  {
  }

  // ---- Taking a value ----

  ghost predicate HeldAt(s: State, r: nat, i: nat) {
    r in s.heap && i < |s.slots| && i < |s.heap[r].cells| && s.heap[r].cells[i].value != 0
  }

  lemma HeldFacts(s: State, r: nat, i: nat)
    requires Inv(s) && HeldAt(s, r, i)
    ensures |s.heap[r].cells| == LIMIT && CellOk(s, r, i) && RecordOk(s, r) && SlotOk(s, i) && i > 0
    ensures s.heap[r].life != Dead && r in s.records
    ensures s.slots[i].state != Free && !s.slots[i].done && s.heap[r].cells[i].generation == s.slots[i].generation
    ensures s.heap[r].cells[i].stamp < |s.history.place| && s.history.place[s.heap[r].cells[i].stamp] == At(r, i)
  {
    assert RecordOk(s, r) && CellOk(s, r, i) && SlotOk(s, i);
  }

  lemma TakeCells(s: State, r: nat, i: nat, callback: nat)
    requires Inv(s) && HeldAt(s, r, i) && s.heap[r].cells[i].stamp < |s.history.place| && callback == s.slots[i].callback
    ensures var s' := Take(s, r, i, callback); |s'.slots| == LIMIT && CellsOk(s') && PlacesOk(s')
  {
    hide SlotsOk, EpochsOk, FramesOk, DeliveriesOk, ContextsOk;
    HeldFacts(s, r, i);
    var s', n := Take(s, r, i, callback), s.heap[r].cells[i].stamp;
    forall q, j: nat | q in s'.heap ensures CellOk(s', q, j) {
      assert CellOk(s, q, j);
    }
    forall m: nat | m < |s'.history.place| ensures PlaceOk(s', m) {
      assert PlaceOk(s, m);
      TakeHanded(s, r, i, callback, m);
    }
  }

  lemma TakeHanded(s: State, r: nat, i: nat, callback: nat, m: nat)
    requires r in s.heap && i < |s.heap[r].cells| && i < |s.slots| && s.heap[r].cells[i].stamp < |s.history.place|
    ensures var s' := Take(s, r, i, callback);
      Handed(s.history, m) || (m == s.heap[r].cells[i].stamp && callback != 0) ==> Handed(s'.history, m)
  {
    var s' := Take(s, r, i, callback);
    if Handed(s.history, m) {
      var k :| 0 <= k < |s.history.delivered| && s.history.delivered[k].stamp == m;
      assert s'.history.delivered[k].stamp == m;
    } else if m == s.heap[r].cells[i].stamp && callback != 0 {
      assert s'.history.delivered[|s.history.delivered|].stamp == m;
    }
  }

  lemma TakeDeliveries(s: State, r: nat, i: nat, callback: nat)
    requires Inv(s) && HeldAt(s, r, i) && s.heap[r].cells[i].stamp < |s.history.place|
    requires callback == s.slots[i].callback
    ensures var s' := Take(s, r, i, callback); EpochsOk(s') && DeliveriesOk(s') && Shape(s')
  {
    hide SlotsOk, FramesOk, CellsOk, PlacesOk, ContextsOk, RecordsOk;
    HeldFacts(s, r, i);
    var s' := Take(s, r, i, callback);
    forall key ensures EpochOk(s', key) {
      assert EpochOk(s, key);
    }
    forall k: nat | k < |s'.history.delivered| ensures DeliveryOk(s', k) {
      if k < |s.history.delivered| {
        assert DeliveryOk(s, k);
      }
    }
    forall k: nat | k < |s.history.delivered| ensures s.history.delivered[k].stamp != s.heap[r].cells[i].stamp {
      assert DeliveryOk(s, k);
    }
  }

  /** A value leaves its record once, and goes to the callback of its own epoch. */
  lemma TakeKeeps(s: State, r: nat, i: nat, callback: nat)
    requires Inv(s) && HeldAt(s, r, i) && callback == s.slots[i].callback
    ensures s.heap[r].cells[i].stamp < |s.history.place| && Inv(Take(s, r, i, callback))
  {
    hide Inv, SlotsOk, EpochsOk, FramesOk, RecordsOk, CellsOk, PlacesOk, DeliveriesOk, ContextsOk, Shape;
    Parts(s);
    HeldFacts(s, r, i);
    var s' := Take(s, r, i, callback);
    TakeCells(s, r, i, callback);
    TakeDeliveries(s, r, i, callback);
    KeepSlots(s, s');
    KeepContexts(s, s');
    KeepRecords(s, s');
    KeepFrames(s, s');
    InvOf(s');
  }

  /** Clearing an empty cell's generation changes nothing that matters. */
  lemma ClearKeeps(s: State, r: nat, i: nat)
    requires Inv(s) && r in s.heap && i < |s.heap[r].cells| && s.heap[r].cells[i].value == 0
    ensures Inv(ClearGeneration(s, r, i))
  {
    hide Inv, SlotsOk, EpochsOk, FramesOk, RecordsOk, DeliveriesOk, ContextsOk, Shape;
    Parts(s);
    var s' := ClearGeneration(s, r, i);
    assert Shape(s') by { KeepShape(s, s'); }
    forall q, j: nat | q in s'.heap ensures CellOk(s', q, j) {
      assert CellOk(s, q, j);
    }
    forall m: nat | m < |s'.history.place| ensures PlaceOk(s', m) {
      assert PlaceOk(s, m);
    }
    KeepSlots(s, s');
    KeepHistory(s, s');
    KeepContexts(s, s');
    KeepRecords(s, s');
    KeepFrames(s, s');
    InvOf(s');
  }

  lemma KeepShape(s: State, s': State)
    requires Shape(s) && |s'.slots| == LIMIT && s'.records == s.records && s'.heap.Keys >= s.heap.Keys
    requires s'.history.(freed := s.history.freed) == s.history
    ensures Shape(s')
  {
  }

  // ---- Reserving a callback ----

  lemma ReserveSlots(s: State, f: nat, i: nat)
    requires Inv(s) && f in s.frames && !s.frames[f].reserved && i < LIMIT && s.slots[i].state != Free
    ensures SlotsOk(Reserve(s, f, i))
  {
    hide EpochsOk, FramesOk, RecordsOk, CellsOk, PlacesOk, DeliveriesOk, ContextsOk;
    var s' := Reserve(s, f, i);
    forall j: nat | j < LIMIT ensures SlotOk(s', j) {
      assert SlotOk(s, j);
      ReservingUpdate(s.frames, f, s'.frames[f], j);
      assert f !in Reserving(s.frames, j);
    }
  }

  lemma ReserveFrames(s: State, f: nat, i: nat)
    requires Inv(s) && f in s.frames && i < LIMIT && s.slots[i].state != Free
    ensures var s' := Reserve(s, f, i); |s'.slots| == LIMIT && FramesOk(s')
  {
    hide EpochsOk, SlotsOk, RecordsOk, CellsOk, PlacesOk, DeliveriesOk, ContextsOk;
    var s' := Reserve(s, f, i);
    forall g | g in s'.frames ensures FrameOk(s', g) {
      assert FrameOk(s, g);
    }
    forall g, h | g in s'.frames && h in s'.frames ensures FramesApart(s', g, h) {
      assert FramesApart(s, g, h);
    }
  }

  lemma ReserveKeeps(s: State, f: nat, i: nat)
    requires Inv(s) && f in s.frames && !s.frames[f].reserved && i < LIMIT
    requires i < |s.slots| && s.slots[i].state != Free
    ensures Inv(Reserve(s, f, i))
  {
    hide Inv, SlotsOk, EpochsOk, FramesOk, RecordsOk, CellsOk, PlacesOk, DeliveriesOk, ContextsOk, Shape;
    Parts(s);
    var s' := Reserve(s, f, i);
    ReserveSlots(s, f, i);
    ReserveFrames(s, f, i);
    assert SamePinning(s, s') by {
      forall r: nat ensures Pinning(s'.frames, r) == Pinning(s.frames, r) {
        PinningUpdate(s.frames, f, s'.frames[f], r);
        assert s'.frames[f].kind == Retire && s'.frames[f].record == Some(r) <==> f in Pinning(s.frames, r);
      }
    }
    KeepShape(s, s');
    KeepHistory(s, s');
    KeepCells(s, s');
    KeepContexts(s, s');
    KeepRecords(s, s');
    InvOf(s');
  }

  // ---- Pinning a record ----

  lemma PinFrames(s: State, f: nat, r: nat)
    requires Inv(s) && f in s.frames && s.frames[f].kind == Retire && r in s.heap
    ensures FramesOk(Pin(s, f, r))
  {
    hide EpochsOk, SlotsOk, RecordsOk, CellsOk, PlacesOk, DeliveriesOk, ContextsOk;
    var s' := Pin(s, f, r);
    forall g | g in s'.frames ensures FrameOk(s', g) {
      assert FrameOk(s, g);
    }
    forall g, h | g in s'.frames && h in s'.frames ensures FramesApart(s', g, h) {
      assert FramesApart(s, g, h);
    }
  }

  lemma PinRecords(s: State, f: nat, r: nat)
    requires Inv(s) && f in s.frames && s.frames[f].kind == Retire && s.frames[f].record == None && r in s.heap
    ensures RecordsOk(Pin(s, f, r))
  {
    hide EpochsOk, SlotsOk, FramesOk, CellsOk, PlacesOk, DeliveriesOk, ContextsOk;
    var s' := Pin(s, f, r);
    forall q | q in s'.heap ensures RecordOk(s', q) {
      assert RecordOk(s, q);
      PinningUpdate(s.frames, f, s'.frames[f], q);
      assert f !in Pinning(s.frames, q);
    }
  }

  lemma PinKeeps(s: State, f: nat, r: nat)
    requires Inv(s) && f in s.frames && s.frames[f].kind == Retire && s.frames[f].record == None && r in s.heap
    ensures Inv(Pin(s, f, r))
  {
    hide Inv, SlotsOk, EpochsOk, FramesOk, RecordsOk, CellsOk, PlacesOk, DeliveriesOk, ContextsOk, Shape;
    Parts(s);
    var s' := Pin(s, f, r);
    PinFrames(s, f, r);
    PinRecords(s, f, r);
    assert SameReserving(s, s') by {
      forall i: nat ensures Reserving(s'.frames, i) == Reserving(s.frames, i) {
        ReservingUpdate(s.frames, f, s'.frames[f], i);
        assert s'.frames[f].reserved && s'.frames[f].cbIndex == i <==> f in Reserving(s.frames, i);
      }
    }
    KeepShape(s, s');
    KeepSlots(s, s');
    KeepHistory(s, s');
    KeepCells(s, s');
    KeepContexts(s, s');
    InvOf(s');
  }

  // ---- Advancing a rundown ----

  lemma AdvanceFrames(s: State, f: nat)
    requires Inv(s) && f in s.frames && s.frames[f].kind == Rundown && s.frames[f].index < LIMIT
    requires s.frames[f].record.Some? && s.frames[f].record.value in s.heap
    requires |s.heap[s.frames[f].record.value].cells| == LIMIT
    requires s.heap[s.frames[f].record.value].cells[s.frames[f].index].value == 0
    ensures FramesOk(Advance(s, f))
  {
    hide EpochsOk, SlotsOk, RecordsOk, CellsOk, PlacesOk, DeliveriesOk, ContextsOk;
    var s' := Advance(s, f);
    forall g | g in s'.frames ensures FrameOk(s', g) {
      assert FrameOk(s, g);
    }
    forall g, h | g in s'.frames && h in s'.frames ensures FramesApart(s', g, h) {
      assert FramesApart(s, g, h);
    }
  }

  lemma AdvanceKeeps(s: State, f: nat)
    requires Inv(s) && f in s.frames && s.frames[f].kind == Rundown && s.frames[f].index < LIMIT
    requires s.frames[f].record.Some? && s.frames[f].record.value in s.heap
    requires |s.heap[s.frames[f].record.value].cells| == LIMIT
    requires s.heap[s.frames[f].record.value].cells[s.frames[f].index].value == 0
    ensures Inv(Advance(s, f))
  {
    hide Inv, SlotsOk, EpochsOk, FramesOk, RecordsOk, CellsOk, PlacesOk, DeliveriesOk, ContextsOk, Shape;
    Parts(s);
    var s' := Advance(s, f);
    AdvanceFrames(s, f);
    SameCounts(s, f, s');
    KeepShape(s, s');
    KeepSlots(s, s');
    KeepHistory(s, s');
    KeepCells(s, s');
    KeepContexts(s, s');
    KeepRecords(s, s');
    InvOf(s');
  }

  lemma SameCounts(s: State, f: nat, s': State)
    requires f in s.frames && f in s'.frames && s'.frames == s.frames[f := s'.frames[f]]
    requires s'.frames[f].(index := 0) == s.frames[f].(index := 0)
    ensures SameReserving(s, s') && SamePinning(s, s')
  {
    forall i: nat ensures Reserving(s'.frames, i) == Reserving(s.frames, i) {
      ReservingUpdate(s.frames, f, s'.frames[f], i);
      assert s'.frames[f].reserved && s'.frames[f].cbIndex == i <==> f in Reserving(s.frames, i);
    }
    forall r: nat ensures Pinning(s'.frames, r) == Pinning(s.frames, r) {
      PinningUpdate(s.frames, f, s'.frames[f], r);
      assert s'.frames[f].kind == Retire && s'.frames[f].record == Some(r) <==> f in Pinning(s.frames, r);
    }
  }
}
