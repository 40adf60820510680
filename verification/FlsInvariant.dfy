/**
 Every locked section keeps the invariant.
 */
module FlsInvariant {
  import opened Options
  import opened FiniteSets
  import opened FlsState
  import opened FlsSteps

  // ---- Counting frames ----

  lemma ReservingUpdate(frames: map<nat, Frame>, f: nat, o: Frame, i: nat)
    ensures Reserving(frames[f := o], i) ==
            if o.reserved && o.cbIndex == i then Reserving(frames, i) + {f} else Reserving(frames, i) - {f}
  {
  }

  lemma PinningUpdate(frames: map<nat, Frame>, f: nat, o: Frame, r: nat)
    ensures Pinning(frames[f := o], r) ==
            if o.kind == Retire && o.record == Some(r) then Pinning(frames, r) + {f} else Pinning(frames, r) - {f}
  {
  }

  lemma FrameRemoved(frames: map<nat, Frame>, f: nat, i: nat, r: nat)
    ensures Reserving(frames - {f}, i) == Reserving(frames, i) - {f}
    ensures Pinning(frames - {f}, r) == Pinning(frames, r) - {f}
  {
  }

  // ---- Releasing a reservation ----

  lemma ReleaseAllowed(s: State, f: nat)
    requires Inv(s) && f in s.frames
    ensures Releasable(s, f)
  {
    assert FrameOk(s, f);
    var o := s.frames[f];
    if o.reserved {
      assert SlotOk(s, o.cbIndex);
      assert f in Reserving(s.frames, o.cbIndex);
    }
  }

  lemma ReleaseKeepsSlots(s: State, f: nat)
    requires Inv(s) && f in s.frames && Releasable(s, f)
    ensures SlotsOk(ReleaseReservation(s, f))
  {
    var s', o := ReleaseReservation(s, f), s.frames[f];
    if o.reserved {
      forall i: nat | i < LIMIT ensures SlotOk(s', i) {
        assert SlotOk(s, i) && FrameOk(s, f);
        ReservingUpdate(s.frames, f, o.(reserved := false), i);
        assert f in Reserving(s.frames, o.cbIndex);
      }
    }
  }

  /** When a slot is finished nobody else holds a reservation on it. */
  lemma ReservedSlot(s: State, f: nat)
    requires Inv(s) && f in s.frames && Releasable(s, f) && s.frames[f].reserved
    ensures |s.slots| == LIMIT && s.frames[f].cbIndex < LIMIT && SlotOk(s, s.frames[f].cbIndex) && FrameOk(s, f)
  {
    hide RecordsOk, CellsOk, PlacesOk, DeliveriesOk, ContextsOk, EpochsOk;
    assert FrameOk(s, f);
  }

  lemma ReleaseKeepsFrame(s: State, f: nat, g: nat)
    requires f in s.frames && g in s.frames && Releasable(s, f) && s.frames[f].reserved && |s.slots| == LIMIT
    requires s.frames[f].cbIndex < LIMIT && SlotOk(s, s.frames[f].cbIndex) && FrameOk(s, f) && FrameOk(s, g)
    ensures |ReleaseReservation(s, f).slots| == LIMIT && FrameOk(ReleaseReservation(s, f), g)
  {
    var o := s.frames[f];
    if g != f && s.frames[g].reserved && s.frames[g].cbIndex == o.cbIndex {
      assert {f, g} <= Reserving(s.frames, o.cbIndex);
      assert |{f, g}| == 2;
      SubsetSize({f, g}, Reserving(s.frames, o.cbIndex));
    }
  }

  lemma ReleaseKeepsFrames(s: State, f: nat)
    requires Inv(s) && f in s.frames && Releasable(s, f)
    ensures |ReleaseReservation(s, f).slots| == LIMIT && FramesOk(ReleaseReservation(s, f))
  {
    hide RecordsOk, CellsOk, PlacesOk, DeliveriesOk, ContextsOk, EpochsOk, FrameOk, SlotOk, Releasable;
    var s', o := ReleaseReservation(s, f), s.frames[f];
    if o.reserved {
      assert SlotOk(s, o.cbIndex) && FrameOk(s, f) by { ReservedSlot(s, f); }
      forall g | g in s'.frames ensures FrameOk(s', g) {
        assert FrameOk(s, g);
        ReleaseKeepsFrame(s, f, g);
      }
      forall g, h | g in s'.frames && h in s'.frames ensures FramesApart(s', g, h) {
        assert FramesApart(s, g, h);
      }
    }
  }

  lemma RecordFrame(s: State, s': State, r: nat)
    requires r in s.heap && RecordOk(s, r) && r in s'.heap && s'.heap[r] == s.heap[r] && s'.records == s.records
    requires Pinning(s'.frames, r) == Pinning(s.frames, r) && s'.history.freed == s.history.freed
    ensures RecordOk(s', r)
  {
  }

  lemma ReleaseKeepsRecords(s: State, f: nat)
    requires Inv(s) && f in s.frames && Releasable(s, f)
    ensures RecordsOk(ReleaseReservation(s, f))
  {
    var s', o := ReleaseReservation(s, f), s.frames[f];
    hide SlotsOk, FramesOk, CellsOk, PlacesOk, DeliveriesOk, ContextsOk, EpochsOk, RecordOk;
    if o.reserved {
      forall r | r in s'.heap ensures RecordOk(s', r) {
        assert RecordOk(s, r);
        PinningUpdate(s.frames, f, o.(reserved := false), r);
        assert Pinning(s'.frames, r) == Pinning(s.frames, r);
        RecordFrame(s, s', r);
      }
    }
  }

  lemma ReleaseKeepsCells(s: State, f: nat)
    requires Inv(s) && f in s.frames && Releasable(s, f)
    ensures |ReleaseReservation(s, f).slots| == LIMIT && CellsOk(ReleaseReservation(s, f))
  {
    var s' := ReleaseReservation(s, f);
    forall r, i: nat | r in s'.heap ensures CellOk(s', r, i) {
      assert CellOk(s, r, i);
    }
  }

  lemma ReleaseKeepsRest(s: State, f: nat)
    requires Inv(s) && f in s.frames && Releasable(s, f)
    ensures var s' := ReleaseReservation(s, f);
      Shape(s') && EpochsOk(s') && PlacesOk(s') && DeliveriesOk(s') && ContextsOk(s')
  {
    var s' := ReleaseReservation(s, f);
    forall key ensures EpochOk(s', key) {
      assert EpochOk(s, key);
    }
    forall n: nat | n < |s'.history.place| ensures PlaceOk(s', n) {
      assert PlaceOk(s, n);
    }
    forall k: nat | k < |s'.history.delivered| ensures DeliveryOk(s', k) {
      assert DeliveryOk(s, k);
    }
    forall t | t in s'.contexts ensures ContextOk(s', t) {
      assert ContextOk(s, t);
    }
  }

  lemma ReleaseKeeps(s: State, f: nat)
    requires Inv(s) && f in s.frames
    ensures Releasable(s, f) && Inv(ReleaseReservation(s, f))
    ensures var s' := ReleaseReservation(s, f);
      f in s'.frames && s'.frames[f] == s.frames[f].(reserved := false) && s'.heap == s.heap && s'.records == s.records
  {
    hide Inv;
    ReleaseAllowed(s, f);
    ReleaseKeepsSlots(s, f);
    ReleaseKeepsFrames(s, f);
    ReleaseKeepsRecords(s, f);
    ReleaseKeepsCells(s, f);
    ReleaseKeepsRest(s, f);
    InvOf(ReleaseReservation(s, f));
  }

  lemma InvOf(s: State)
    requires |s.slots| == LIMIT
    requires Shape(s) && SlotsOk(s) && EpochsOk(s) && FramesOk(s) && RecordsOk(s) && CellsOk(s)
    requires PlacesOk(s) && DeliveriesOk(s) && ContextsOk(s)
    ensures Inv(s)
  {
  }

  // ---- Dropping a reference ----

  /** The invariant, except that record `r` counts one reference too many. */
  ghost predicate Owing(s: State, r: nat) {
    && Shape(s) && SlotsOk(s) && EpochsOk(s) && FramesOk(s) && CellsOk(s)
    && PlacesOk(s) && DeliveriesOk(s) && ContextsOk(s)
    && (forall q :: q in s.heap && q != r ==> RecordOk(s, q))
    && r in s.heap && s.heap[r].references > 0
    && RecordOwing(s, r)
  }

  ghost predicate RecordOwing(s: State, r: nat)
    requires r in s.heap
  {
    var d := s.heap[r];
    && d.references == Listed(s.records, r) + |Pinning(s.frames, r)| + 1
    && (d.life == Dead <==> r !in s.records)
    && |d.cells| == LIMIT && d.cells[0].value == 0
    && (d.life == Dead ==> forall j :: 0 <= j < LIMIT ==> d.cells[j].value == 0)
    && r !in s.history.freed
  }

  /** The last reference belongs to nobody: no frame, context or value points at the record. */
  lemma Unreferenced(s: State, r: nat, f: nat)
    requires Owing(s, r) && s.heap[r].references == 1 && s.heap[r].life == Dead && f in s.frames
    ensures s.frames[f].record != Some(r)
  {
    assert FrameOk(s, f);
    EmptySet(Pinning(s.frames, r));
    PinningHas(s.frames, f, r);
  }

  lemma PinningHas(frames: map<nat, Frame>, f: nat, r: nat)
    ensures f in Pinning(frames, r) <==> f in frames && frames[f].kind == Retire && frames[f].record == Some(r)
  {
  }

  lemma EmptySet(a: set<nat>)
    ensures |a| == 0 ==> a == {}
  {
  }

  lemma DropKeepsFrames(s: State, r: nat)
    requires Owing(s, r)
    ensures FramesOk(DropReference(s, r))
  {
    hide SlotsOk, CellsOk, PlacesOk, DeliveriesOk, ContextsOk, EpochsOk;
    var s' := DropReference(s, r);
    forall f | f in s'.frames ensures FrameOk(s', f) {
      assert FrameOk(s, f);
      if s.heap[r].references == 1 && s.heap[r].life == Dead {
        Unreferenced(s, r, f);
      }
    }
    forall f, g | f in s'.frames && g in s'.frames ensures FramesApart(s', f, g) {
      assert FramesApart(s, f, g);
    }
  }

  lemma DropKeepsRecords(s: State, r: nat)
    requires Owing(s, r)
    ensures RecordsOk(DropReference(s, r)) && Shape(DropReference(s, r)) && SlotsOk(DropReference(s, r))
  {
    hide CellsOk, PlacesOk, DeliveriesOk, ContextsOk, EpochsOk, FramesOk;
    var s' := DropReference(s, r);
    forall i: nat | i < |s'.slots| ensures SlotOk(s', i) {
      assert SlotOk(s, i);
    }
    forall q | q in s'.heap ensures RecordOk(s', q) {
      assert q != r ==> RecordOk(s, q);
    }
  }

  lemma DropKeepsCells(s: State, r: nat)
    requires Owing(s, r)
    ensures CellsOk(DropReference(s, r)) && PlacesOk(DropReference(s, r))
  {
    hide SlotsOk, FramesOk, EpochsOk, DeliveriesOk, ContextsOk;
    var s' := DropReference(s, r);
    forall q, i: nat | q in s'.heap ensures CellOk(s', q, i) {
      assert CellOk(s, q, i);
    }
    forall n: nat | n < |s'.history.place| ensures PlaceOk(s', n) {
      assert PlaceOk(s, n);
    }
  }

  lemma DropKeepsRest(s: State, r: nat)
    requires Owing(s, r)
    ensures var s' := DropReference(s, r); CellsOk(s') && PlacesOk(s') && EpochsOk(s') && DeliveriesOk(s') && ContextsOk(s')
  {
    hide SlotsOk, FramesOk;
    DropKeepsCells(s, r);
    hide CellsOk, PlacesOk, RecordsOk;
    var s' := DropReference(s, r);
    forall key ensures EpochOk(s', key) {
      assert EpochOk(s, key);
    }
    forall k: nat | k < |s'.history.delivered| ensures DeliveryOk(s', k) {
      assert DeliveryOk(s, k);
    }
    forall t | t in s'.contexts ensures ContextOk(s', t) {
      assert ContextOk(s, t);
    }
  }

  lemma DropKeeps(s: State, r: nat)
    requires Owing(s, r)
    ensures Inv(DropReference(s, r))
  {
    hide SlotsOk, FramesOk, RecordsOk, CellsOk, PlacesOk, DeliveriesOk, ContextsOk, EpochsOk, Shape;
    DropKeepsFrames(s, r);
    DropKeepsRecords(s, r);
    DropKeepsRest(s, r);
  }

  // ---- First section of a retirement round ----

  lemma UnpinOwes(s: State, f: nat, r: nat)
    requires Inv(s) && f in s.frames && s.frames[f].kind == Retire && s.frames[f].record == Some(r)
    ensures r in s.heap && Owing(Unpin(s, f), r)
  {
    hide SlotsOk, CellsOk, PlacesOk, DeliveriesOk, ContextsOk, EpochsOk, RecordsOk, RecordOk, RecordOwing;
    assert FrameOk(s, f);
    hide FramesOk;
    UnpinKeepsFrames(s, f, r);
    UnpinKeepsSlots(s, f);
    UnpinCounts(s, f, r);
    UnpinKeepsRest(s, f);
  }

  lemma UnpinKeepsSlots(s: State, f: nat)
    requires Inv(s) && f in s.frames
    ensures SlotsOk(Unpin(s, f))
  {
    hide FramesOk, CellsOk, PlacesOk, DeliveriesOk, ContextsOk, EpochsOk, RecordsOk;
    var s' := Unpin(s, f);
    forall i: nat | i < |s'.slots| ensures SlotOk(s', i) {
      assert SlotOk(s, i);
      ReservingUpdate(s.frames, f, s'.frames[f], i);
      assert Reserving(s'.frames, i) == Reserving(s.frames, i);
    }
  }

  lemma UnpinKeepsFrames(s: State, f: nat, r: nat)
    requires Inv(s) && f in s.frames && s.frames[f].kind == Retire && s.frames[f].record == Some(r)
    ensures FramesOk(Unpin(s, f))
  {
    hide SlotsOk, CellsOk, PlacesOk, DeliveriesOk, ContextsOk, EpochsOk, RecordsOk;
    var s' := Unpin(s, f);
    forall g | g in s'.frames ensures FrameOk(s', g) {
      assert FrameOk(s, g);
    }
    forall g, h | g in s'.frames && h in s'.frames ensures FramesApart(s', g, h) {
      assert FramesApart(s, g, h);
    }
  }

  lemma UnpinCounts(s: State, f: nat, r: nat)
    requires Inv(s) && f in s.frames && s.frames[f].kind == Retire && s.frames[f].record == Some(r) && r in s.heap
    ensures var s' := Unpin(s, f);
      && (forall q :: q in s'.heap && q != r ==> RecordOk(s', q))
      && s'.heap[r].references > 0 && RecordOwing(s', r)
  {
    hide SlotsOk, CellsOk, PlacesOk, DeliveriesOk, ContextsOk, EpochsOk, FramesOk;
    var s' := Unpin(s, f);
    forall q | q in s'.heap ensures Pinning(s'.frames, q) == Pinning(s.frames, q) - {f} {
      PinningUpdate(s.frames, f, s.frames[f].(record := None), q);
    }
    assert f in Pinning(s.frames, r);
    forall q | q in s'.heap && q != r ensures RecordOk(s', q) {
      assert RecordOk(s, q);
      assert Pinning(s'.frames, q) == Pinning(s.frames, q);
    }
    assert RecordOk(s, r);
  }

  lemma UnpinKeepsRest(s: State, f: nat)
    requires Inv(s) && f in s.frames
    ensures var s' := Unpin(s, f);
      CellsOk(s') && PlacesOk(s') && EpochsOk(s') && DeliveriesOk(s') && ContextsOk(s')
  {
    hide SlotsOk, FramesOk, RecordsOk;
    var s' := Unpin(s, f);
    forall q, i: nat | q in s'.heap ensures CellOk(s', q, i) {
      assert CellOk(s, q, i);
    }
    forall n: nat | n < |s'.history.place| ensures PlaceOk(s', n) {
      assert PlaceOk(s, n);
    }
    forall key ensures EpochOk(s', key) {
      assert EpochOk(s, key);
    }
    forall k: nat | k < |s'.history.delivered| ensures DeliveryOk(s', k) {
      assert DeliveryOk(s, k);
    }
    forall t | t in s'.contexts ensures ContextOk(s', t) {
      assert ContextOk(s, t);
    }
  }

  lemma DropRecordKeeps(s: State, f: nat)
    requires Inv(s) && f in s.frames && s.frames[f].kind == Retire && s.frames[f].record.Some?
    ensures s.frames[f].record.value in s.heap && s.heap[s.frames[f].record.value].references > 0
    ensures Inv(DropRecord(s, f))
  {
    hide Inv, Owing;
    var r := s.frames[f].record.value;
    UnpinOwes(s, f, r);
    OwingFacts(Unpin(s, f), r);
    DropKeeps(Unpin(s, f), r);
  }

  lemma OwingFacts(s: State, r: nat)
    requires Owing(s, r)
    ensures r in s.heap && s.heap[r].references > 0
  {
  }
}
