/**
 The bridge as the program keeps it: one global object whose fields change under the lock.
 Each method is one locked section and is proved to be the corresponding step.
 */
module FlsBridge {
  import opened Options
  import opened FlsState
  import opened FlsSteps
  import opened FlsInvariant
  import opened FlsKeeps
  import opened FlsLifecycle
  import opened FlsRuns
  import opened FlsWaiting
  import opened FlsValues

  /** What a section leaves to be done outside the lock. */
  datatype Outcome =
    | Call(callback: nat, value: nat)
    | Nothing
    | Wait
    | Finished

  /** Walks a list up to the first element equal to `x` and takes it out. */
  lemma WithoutStep(list: seq<nat>, x: nat, k: nat)
    requires k < |list|
    ensures list[..k] + FlsSteps.Without(list[k..], x)
         == if list[k] == x then list[..k] + list[k + 1..] else list[..k + 1] + FlsSteps.Without(list[k + 1..], x)
  {
    assert list[k..][1..] == list[k + 1..];
    assert list[..k + 1] == list[..k] + [list[k]];
  }

  method Unlink(list: seq<nat>, x: nat) returns (r: seq<nat>)
    ensures r == FlsSteps.Without(list, x)
  {
    var k := 0;
    r := list;
    while k < |list| && list[k] != x
      invariant k <= |list|
      invariant FlsSteps.Without(list, x) == list[..k] + FlsSteps.Without(list[k..], x)
    {
      WithoutStep(list, x, k);
      k := k + 1;
    }
    if k < |list| {
      WithoutStep(list, x, k);
      r := list[..k] + list[k + 1..];
    } else {
      assert list[k..] == [] && list[..k] == list;
    }
  }

  /** Cells of the two records once the cells below `i` have moved. */
  ghost function Received(a: seq<Cell>, b: seq<Cell>, i: nat): (r: seq<Cell>)
    requires 1 <= i <= |a| == |b|
  {
    b[..1] + a[1..i] + b[i..]
  }

  ghost function Emptied(a: seq<Cell>, i: nat): (r: seq<Cell>)
    requires 1 <= i <= |a|
  {
    a[..1] + seq(i - 1, _ => EMPTY) + a[i..]
  }

  lemma TransferOne(a: seq<Cell>, b: seq<Cell>, i: nat)
    requires 1 <= i < |a| == |b|
    ensures i < |Emptied(a, i)| && i < |Received(a, b, i)|
    ensures Received(a, b, i)[i := Emptied(a, i)[i]] == Received(a, b, i + 1)
    ensures Emptied(a, i)[i := EMPTY] == Emptied(a, i + 1)
  {
  }

  class Bridge {
    const slots: array<Slot>
    var records: seq<nat>
    var heap: map<nat, Record>
    var frames: map<nat, Frame>
    var contexts: map<nat, Context>
    var history: History // history variables only; see `History`

    function Value(): State
      reads this, slots
    {
      State(slots[..], records, heap, frames, contexts, history)
    }

    ghost predicate Valid()
      reads this, slots
    {
      slots.Length == LIMIT && Inv(Value())
    }

    constructor ()
      ensures Valid() && Value() == Initial() && fresh(slots)
    {
      var table := new Slot[LIMIT](_ => Slot(Free, 0, 0, false, 0, 0));
      slots := table;
      records, heap, frames, contexts := [], map[], map[], map[];
      history := History([], [], [], map[], {}, {});
      new;
      assert slots[..] == Initial().slots;
      InitialInv();
    }

    // ---- Pieces shared by several sections ----

    method FinishSlot(i: nat)
      requires i < slots.Length
      modifies slots
      ensures slots[..] == old(slots[..])[i := FlsSteps.Finished(old(slots[i]))]
    {
      var k := slots[i];
      var generation := (k.generation + 1) % WORD;
      if generation == 0 {
        generation := 1;
      }
      slots[i] := Slot(Free, generation, k.callbacks, false, 0, k.epoch);
    }

    method ReleaseCallback(f: nat)
      requires slots.Length == LIMIT && Releasable(Value(), f)
      modifies this`frames, slots
      ensures Value() == ReleaseReservation(old(Value()), f)
    {
      var o := frames[f];
      if !o.reserved {
        return;
      }
      var i := o.cbIndex;
      frames := frames[f := o.(reserved := false)];
      slots[i] := slots[i].(callbacks := slots[i].callbacks - 1);
      if slots[i].callbacks == 0 && slots[i].done {
        FinishSlot(i);
      }
      assert slots[..] == old(slots[..])[i := Released(old(slots[..])[i])];
    }

    method ReserveCallback(f: nat, i: nat)
      requires f in frames && i < slots.Length
      modifies this`frames, slots
      ensures Value() == Reserve(old(Value()), f, i)
    {
      frames := frames[f := frames[f].(reserved := true, cbIndex := i, cbGeneration := slots[i].generation)];
      slots[i] := slots[i].(callbacks := slots[i].callbacks + 1);
    }

    method UnlinkCleanup(f: nat)
      requires f in frames && frames[f].context in contexts
      modifies this`frames, this`contexts
      ensures Value() == UnlinkFrame(old(Value()), f)
    {
      var t := frames[f].context;
      var cleanup := Unlink(contexts[t].cleanup, f);
      contexts := contexts[t := contexts[t].(cleanup := cleanup)];
      frames := frames - {f};
    }

    method LinkCleanup(f: nat, o: Frame)
      requires o.context in contexts
      modifies this`frames, this`contexts
      ensures Value() == LinkFrame(old(Value()), f, o)
    {
      var c := contexts[o.context];
      contexts := contexts[o.context := c.(cleanup := [f] + c.cleanup)];
      frames := frames[f := o];
    }

    /** Gives one reference back; true when that was the last one of a dead record. */
    method Drop(r: nat) returns (finalize: bool)
      requires r in heap && heap[r].references > 0
      modifies this`heap, this`history
      ensures Value() == DropReference(old(Value()), r)
      ensures finalize <==> r !in heap
    {
      heap := heap[r := heap[r].(references := heap[r].references - 1)];
      finalize := heap[r].references == 0 && heap[r].life == Dead;
      if finalize {
        assert old(heap) - {r} == heap - {r};
        heap := heap - {r};
        history := history.(freed := history.freed + {r});
      }
    }

    /** Clears one cell; the value goes to the callback if there is one. */
    method TakeValue(r: nat, i: nat, callback: nat) returns (value: nat)
      requires r in heap && i < |heap[r].cells| && i < slots.Length && heap[r].cells[i].stamp < |history.place|
      modifies this`heap, this`history
      ensures Value() == Take(old(Value()), r, i, callback) && value == old(heap[r].cells[i].value)
    {
      var c := heap[r].cells[i];
      value := c.value;
      heap := heap[r := heap[r].(cells := heap[r].cells[i := EMPTY])];
      if callback == 0 {
        history := history.(place := history.place[c.stamp := Discarded]);
      } else {
        history := history.(place := history.place[c.stamp := Delivered],
                            delivered := history.delivered + [Delivery(c.stamp, i, slots[i].epoch, callback, c.value)]);
      }
    }

    // ---- Sections ----

    /** Takes the lowest free index; 0 stands for none, since index 0 is never given out. */
    method Alloc(callback: nat) returns (index: nat)
      requires Valid()
      modifies this`history, slots
      ensures Valid() && Value() == Do(old(Value()), OpAlloc(callback))
      ensures index == 0 <==> forall j :: 1 <= j < LIMIT ==> old(slots[j].state) != Free
      ensures index != 0 ==> index < LIMIT && old(slots[index].state) == Free && slots[index].state == Active
    {
      hide Inv;
      StepKeeps(Value(), OpAlloc(callback));
      index := 1;
      while index < LIMIT && slots[index].state != Free
        invariant 1 <= index <= LIMIT
        invariant FreeIndex(slots[..], 1) == FreeIndex(slots[..], index)
      {
        index := index + 1;
      }
      if index == LIMIT {
        return 0;
      }
      var k := slots[index];
      var generation := if k.generation == 0 then 1 else k.generation;
      slots[index] := Slot(Active, generation, k.callbacks, k.done, callback, k.epoch + 1);
      history := history.(registered := history.registered[(index, k.epoch + 1) := callback]);
    }

    method BeginFree(t: nat, fiber: nat, index: nat, f: nat) returns (ok: bool)
      requires Valid() && Enabled(Value(), OpFree(t, fiber, index, f))
      modifies this`frames, this`contexts, slots
      ensures Valid() && Value() == Do(old(Value()), OpFree(t, fiber, index, f))
      ensures ok <==> 0 < index < LIMIT && old(slots[..])[index].state == Active
    {
      hide Inv;
      StepKeeps(Value(), OpFree(t, fiber, index, f));
      if index == 0 || index >= LIMIT {
        return false;
      }
      if slots[index].state != Active {
        return false;
      }
      slots[index] := slots[index].(state := Retiring);
      LinkCleanup(f, Frame(t, fiber, Retire, index, slots[index].generation, slots[index].callback, None, false, false, 0, 0));
      ok := true;
    }

    method DropRecord(f: nat) returns (finalize: bool)
      requires Valid() && Enabled(Value(), OpDropRecord(f))
      modifies this`frames, this`heap, this`history
      ensures Valid() && Value() == Do(old(Value()), OpDropRecord(f))
      ensures finalize <==> old(frames[f].record.value) !in heap
    {
      hide Inv;
      StepKeeps(Value(), OpDropRecord(f));
      DropRecordKeeps(Value(), f);
      var r := frames[f].record.value;
      frames := frames[f := frames[f].(record := None)];
      finalize := Drop(r);
    }

    method FindCandidate(f: nat) returns (found: bool, record: nat)
      requires f in frames
      ensures FirstCandidate(Value(), f, records) == if found then Some(record) else None
    {
      found, record := false, 0;
      for k := 0 to |records|
        invariant FirstCandidate(Value(), f, records) == FirstCandidate(Value(), f, records[k..])
      {
        assert records[k..][1..] == records[k + 1..];
        if Candidate(Value(), f, records[k]) {
          return true, records[k];
        }
      }
    }

    method CountLocal(f: nat) returns (count: nat)
      requires f in frames && frames[f].context in contexts
      requires forall g :: g in contexts[frames[f].context].cleanup ==> g in frames
      ensures count == LocalCallbacks(frames, contexts[frames[f].context].cleanup, frames[f].index, frames[f].generation)
    {
      var o, list := frames[f], contexts[frames[f].context].cleanup;
      count := 0;
      for k := 0 to |list|
        invariant LocalCallbacks(frames, list, o.index, o.generation)
                  == count + LocalCallbacks(frames, list[k..], o.index, o.generation)
      {
        assert list[k..][1..] == list[k + 1..];
        assert list[k] in list;
        var g := frames[list[k]];
        if g.reserved && g.cbIndex == o.index && g.cbGeneration == o.generation {
          count := count + 1;
        }
      }
    }

    /** The last section of `FlsFree`. */
    method FinishRetirement(f: nat)
      requires f in frames && frames[f].context in contexts && frames[f].index < slots.Length
      modifies this`frames, this`contexts, this`history, slots
      ensures Value() == FinishRetire(old(Value()), f)
    {
      var i := frames[f].index;
      UnlinkCleanup(f);
      history := history.(returned := history.returned + {(i, slots[i].epoch)});
      slots[i] := slots[i].(done := true);
      if slots[i].callbacks == 0 {
        FinishSlot(i);
      }
      ghost var k := old(slots[..])[i].(done := true);
      assert slots[..] == old(slots[..])[i := if k.callbacks == 0 then FlsSteps.Finished(k) else k];
    }

    /** One retirement round: give the reservation back, then detach a value, wait or finish. */
    method ScanRound(f: nat) returns (outcome: Outcome)
      requires Valid() && Enabled(Value(), OpScan(f))
      modifies this, slots
      ensures Valid() && Value() == Do(old(Value()), OpScan(f))
      ensures outcome.Call? ==> |history.delivered| == |old(history).delivered| + 1
                                && history.delivered[|history.delivered| - 1].callback == outcome.callback
                                && history.delivered[|history.delivered| - 1].value == outcome.value
      ensures outcome == Outcome.Finished <==> f !in frames
      ensures outcome == Wait <==> MustWait(old(Value()), f)
    {
      hide Inv, FirstCandidate, LocalCallbacks, Blocks;
      ghost var s := Value();
      StepKeeps(s, OpScan(f));
      ReleaseKeeps(s, f);
      WaitsIff(ReleaseReservation(s, f), f);
      ScanFacts(ReleaseReservation(s, f), f);
      ReleaseCallback(f);
      var o := frames[f];
      var found, r := FindCandidate(f);
      if !found {
        var local := CountLocal(f);
        if slots[o.index].callbacks > local {
          return Wait;
        }
        FinishRetirement(f);
        return Outcome.Finished;
      }
      var value := TakeValue(r, o.index, o.callback);
      heap := heap[r := heap[r].(references := heap[r].references + 1)];
      frames := frames[f := frames[f].(record := Some(r))];
      outcome := Nothing;
      if o.callback != 0 {
        ReserveCallback(f, o.index);
        outcome := Call(o.callback, value);
      }
    }

    /** Takes the next cell of a record that is run down. */
    method RundownOne(f: nat) returns (outcome: Outcome)
      requires f in frames && frames[f].record.Some? && frames[f].record.value in heap && frames[f].index < slots.Length
      requires frames[f].index < |heap[frames[f].record.value].cells|
      requires heap[frames[f].record.value].cells[frames[f].index].value != 0 ==>
                 heap[frames[f].record.value].cells[frames[f].index].stamp < |history.place|
      modifies this, slots
      ensures Value() == RundownCell(old(Value()), f) && f in frames
      ensures outcome == Nothing || outcome.Call?
      ensures outcome.Call? ==> |history.delivered| == |old(history).delivered| + 1
                                && history.delivered[|history.delivered| - 1].callback == outcome.callback
                                && history.delivered[|history.delivered| - 1].value == outcome.value
    {
      var r, i := frames[f].record.value, frames[f].index;
      var c, k := heap[r].cells[i], slots[i];
      outcome := Nothing;
      if c.value != 0 && k.state != Free && c.generation == k.generation {
        var value := TakeValue(r, i, k.callback);
        if k.callback != 0 {
          ReserveCallback(f, i);
          outcome := Call(k.callback, value);
        }
      } else if c.value != 0 {
        var value := TakeValue(r, i, 0);
      } else {
        heap := heap[r := heap[r].(cells := heap[r].cells[i := EMPTY])];
      }
      frames := frames[f := frames[f].(index := i + 1)];
    }

    /** One rundown round: give the reservation back, then clear a cell, wait or finish. */
    method RundownStep(f: nat) returns (outcome: Outcome)
      requires Valid() && Enabled(Value(), OpRundown(f))
      modifies this, slots
      ensures Valid() && Value() == Do(old(Value()), OpRundown(f))
      ensures outcome.Call? ==> |history.delivered| == |old(history).delivered| + 1
                                && history.delivered[|history.delivered| - 1].callback == outcome.callback
                                && history.delivered[|history.delivered| - 1].value == outcome.value
      ensures outcome == Outcome.Finished <==> f !in frames
    {
      hide Inv;
      ghost var s := Value();
      StepKeeps(s, OpRundown(f));
      ReleaseKeeps(s, f);
      RundownFacts(ReleaseReservation(s, f), f);
      ReleaseCallback(f);
      var o := frames[f];
      var r := o.record.value;
      if o.index < LIMIT {
        outcome := RundownOne(f);
        return;
      }
      if o.waits && heap[r].references > 1 {
        return Wait;
      }
      UnlinkCleanup(f);
      records := Unlink(records, r);
      heap := heap[r := heap[r].(life := Dead)];
      var finalize := Drop(r);
      outcome := Outcome.Finished;
    }

    method BeginRundown(t: nat, fiber: nat, r: nat, nativeDelete: bool, waits: bool, f: nat) returns (ok: bool)
      requires Valid() && Enabled(Value(), OpKill(t, fiber, r, nativeDelete, waits, f))
      modifies this`frames, this`contexts, this`heap
      ensures Valid() && Value() == Do(old(Value()), OpKill(t, fiber, r, nativeDelete, waits, f))
      ensures ok <==> old(heap[r].life) == Live
    {
      hide Inv;
      StepKeeps(Value(), OpKill(t, fiber, r, nativeDelete, waits, f));
      if heap[r].life != Live {
        return false;
      }
      heap := heap[r := heap[r].(life := Dying, nativeDelete := nativeDelete)];
      if contexts[t].record == Some(r) {
        contexts := contexts[t := contexts[t].(record := None)];
      }
      assert Value() == Kill(old(Value()), t, r, nativeDelete);
      LinkCleanup(f, Frame(t, fiber, Rundown, 1, 0, 0, Some(r), waits, false, 0, 0));
      ok := true;
    }

    /** The caller's record: its fiber's when it runs on a fiber, else its thread's. */
    method FindRecord(t: nat, fiber: nat) returns (found: bool, record: nat)
      requires t in contexts
      ensures CurrentRecord(Value(), t, fiber) == if found then Some(record) else None
    {
      found, record := false, 0;
      if fiber != 0 {
        for k := 0 to |records|
          invariant FindFiber(Value(), fiber, records) == FindFiber(Value(), fiber, records[k..])
        {
          assert records[k..][1..] == records[k + 1..];
          var r := records[k];
          if r in heap && heap[r].kind == FiberRecord && heap[r].fiber == fiber && heap[r].life == Live {
            return true, r;
          }
        }
        return;
      }
      if contexts[t].exiting {
        return;
      }
      match contexts[t].record
      case None =>
      case Some(r) =>
        if r in heap && heap[r].life == Live {
          return true, r;
        }
    }

    /** A value read back is one stored by the caller's record in the slot's present epoch. */
    method GetValue(t: nat, fiber: nat, index: nat) returns (ok: bool, value: nat)
      requires Valid() && t in contexts
      ensures ok <==> && 0 < index < LIMIT && slots[index].state == Active
                      && (fiber != 0 ==> CurrentRecord(Value(), t, fiber).Some?)
      ensures value == if ok then Reads(Value(), t, fiber, index) else 0
      ensures value != 0 ==>
        && ok && CurrentRecord(Value(), t, fiber).Some?
        && HeldAt(Value(), CurrentRecord(Value(), t, fiber).value, index)
        && value == heap[CurrentRecord(Value(), t, fiber).value].cells[index].value
      ensures ok && CurrentRecord(Value(), t, fiber).Some? && HeldAt(Value(), CurrentRecord(Value(), t, fiber).value, index) ==>
        value != 0
    {
      hide Inv;
      if index == 0 || index >= LIMIT {
        return false, 0;
      }
      if slots[index].state != Active {
        return false, 0;
      }
      var found, r := FindRecord(t, fiber);
      if fiber != 0 && !found {
        return false, 0;
      }
      value := 0;
      if found {
        Parts(Value());
        assert RecordOk(Value(), r) && CellOk(Value(), r, index);
        if heap[r].cells[index].generation == slots[index].generation {
          value := heap[r].cells[index].value;
        }
      }
      ok := true;
    }

    method PutCell(r: nat, i: nat, value: nat)
      requires r in heap && i < slots.Length && i < |heap[r].cells|
      requires heap[r].cells[i].value != 0 ==> heap[r].cells[i].stamp < |history.place|
      modifies this`heap, this`history
      ensures Value() == Store(old(Value()), r, i, value)
    {
      var was, stamp := heap[r].cells[i], |history.place|;
      var place := if was.value != 0 then history.place[was.stamp := Overwritten] else history.place;
      heap := heap[r := heap[r].(cells := heap[r].cells[i := Cell(value, slots[i].generation, stamp)])];
      history := history.(stored := history.stored + [Stored(i, slots[i].epoch, value)],
                          place := place + [if value != 0 then At(r, i) else Discarded]);
    }

    /** `r` names the record to allocate if the calling thread has none yet. */
    method SetValue(t: nat, fiber: nat, index: nat, value: nat, r: nat) returns (ok: bool)
      requires Valid() && Enabled(Value(), OpSet(t, fiber, index, value, r))
      modifies this`records, this`heap, this`contexts, this`history
      ensures Valid() && Value() == Do(old(Value()), OpSet(t, fiber, index, value, r))
      ensures ok <==> && 0 < index < LIMIT && slots[..][index].state == Active && !old(contexts)[t].exiting
                      && (fiber != 0 ==> old(CurrentRecord(Value(), t, fiber)).Some?)
      ensures if ok then StoresValue(old(Value()), Value(), t, fiber, index, value) else Value() == old(Value())
    {
      hide Inv, FindFiber, StoresValue;
      ghost var s := Value();
      StepKeeps(s, OpSet(t, fiber, index, value, r));
      SetStores(s, OpSet(t, fiber, index, value, r));
      if index == 0 || index >= LIMIT {
        return false;
      }
      if slots[index].state != Active || contexts[t].exiting {
        return false;
      }
      var found, record := FindRecord(t, fiber);
      if !found && fiber != 0 {
        return false;
      }
      if found {
        StoreKeeps(s, record, index, value);
      } else {
        record := r;
        heap := heap[r := NewRecord(ThreadRecord, t, 0)];
        records := [r] + records;
        contexts := contexts[t := contexts[t].(record := Some(r))];
      }
      PutCell(record, index, value);
      ok := true;
    }

    /** Moves the cells of one record to another, index by index. */
    method TransferCells(from: nat, to: nat)
      requires from in heap && to in heap && from != to && |heap[from].cells| == |heap[to].cells| == LIMIT
      modifies this`heap, this`history
      ensures Value() == MoveCells(old(Value()), from, to)
    {
      ghost var a, b := heap[from], heap[to];
      assert Received(a.cells, b.cells, 1) == b.cells && Emptied(a.cells, 1) == a.cells;
      for i := 1 to LIMIT
        invariant heap.Keys == old(heap).Keys && history == old(history)
        invariant forall r :: r in heap && r != from && r != to ==> heap[r] == old(heap)[r]
        invariant heap[to] == b.(cells := Received(a.cells, b.cells, i))
        invariant heap[from] == a.(cells := Emptied(a.cells, i))
      {
        TransferOne(a.cells, b.cells, i);
        heap := heap[to := heap[to].(cells := heap[to].cells[i := heap[from].cells[i]])];
        heap := heap[from := heap[from].(cells := heap[from].cells[i := EMPTY])];
      }
      assert Received(a.cells, b.cells, LIMIT) == b.cells[..1] + a.cells[1..];
      assert Emptied(a.cells, LIMIT) == a.cells[..1] + seq(LIMIT - 1, _ => EMPTY);
      assert heap == old(heap)[to := heap[to]][from := heap[from]];
      history := history.(place := Moved(history.place, from, to));
    }

    /** The calling thread becomes a fiber; `r` names the fiber's record. */
    method ConvertThread(t: nat, fiber: nat, r: nat) returns (ok: bool)
      requires Valid() && Enabled(Value(), OpConvert(t, fiber, r))
      modifies this`records, this`heap, this`contexts, this`history
      ensures Valid() && Value() == Do(old(Value()), OpConvert(t, fiber, r))
      ensures ok <==> !old(contexts)[t].exiting
    {
      hide Inv, FlsSteps.Without;
      ghost var s := Value();
      StepKeeps(s, OpConvert(t, fiber, r));
      if contexts[t].exiting {
        return false;
      }
      ConvertKeeps(s, t, fiber, r);
      var was := contexts[t].record;
      heap := heap[r := NewRecord(FiberRecord, t, fiber)];
      records := [r] + records;
      if was.Some? {
        contexts := contexts[t := contexts[t].(record := None)];
        TransferCells(was.value, r);
        records := Unlink(records, was.value);
        heap := heap[was.value := heap[was.value].(life := Dead)];
        var finalize := Drop(was.value);
      }
      ok := true;
    }

    method CreateFiber(t: nat, fiber: nat, r: nat)
      requires Valid() && Enabled(Value(), OpCreateFiber(t, fiber, r))
      modifies this`records, this`heap
      ensures Valid() && Value() == Do(old(Value()), OpCreateFiber(t, fiber, r))
    {
      hide Inv;
      StepKeeps(Value(), OpCreateFiber(t, fiber, r));
      heap := heap[r := NewRecord(FiberRecord, t, fiber)];
      records := [r] + records;
    }
  }
}
