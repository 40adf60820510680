/**
 The locked sections of the bridge.
 */
module FlsSteps {
  import opened Options
  import opened FlsState

  function NextGeneration(g: nat): nat {
    if (g + 1) % WORD == 0 then 1 else (g + 1) % WORD
  }

  /** A slot whose retirement is complete and whose callbacks have all returned. */
  function Finished(k: Slot): Slot {
    k.(state := Free, callback := 0, done := false, generation := NextGeneration(k.generation))
  }

  function Without(list: seq<nat>, x: nat): seq<nat> {
    if list == [] then []
    else if list[0] == x then list[1..]
    else [list[0]] + Without(list[1..], x)
  }

  // ---- Reservations ----

  function Released(k: Slot): Slot
    requires k.callbacks > 0
  {
    var k' := k.(callbacks := k.callbacks - 1);
    if k'.callbacks == 0 && k'.done then Finished(k') else k'
  }

  /** A frame may give its reservation back. */
  predicate Releasable(s: State, f: nat) {
    && f in s.frames && |s.slots| == LIMIT
    && (s.frames[f].reserved ==> s.frames[f].cbIndex < LIMIT && s.slots[s.frames[f].cbIndex].callbacks > 0)
  }

  function ReleaseReservation(s: State, f: nat): State
    requires Releasable(s, f)
  {
    var o := s.frames[f];
    if !o.reserved then s
    else s.(slots := s.slots[o.cbIndex := Released(s.slots[o.cbIndex])], frames := s.frames[f := o.(reserved := false)])
  }

  /** Reserves the callback of slot `i` for the frame. */
  function Reserve(s: State, f: nat, i: nat): State
    requires f in s.frames && i < |s.slots|
  {
    var o, k := s.frames[f], s.slots[i];
    s.(slots := s.slots[i := k.(callbacks := k.callbacks + 1)],
       frames := s.frames[f := o.(reserved := true, cbIndex := i, cbGeneration := k.generation)])
  }

  // ---- Records ----

  /** The record gives up one reference; the last one frees a dead record. */
  function DropReference(s: State, r: nat): State
    requires r in s.heap && s.heap[r].references > 0
  {
    var d := s.heap[r].(references := s.heap[r].references - 1);
    if d.references == 0 && d.life == Dead
    then s.(heap := s.heap - {r}, history := s.history.(freed := s.history.freed + {r}))
    else s.(heap := s.heap[r := d])
  }

  function Unpin(s: State, f: nat): State
    requires f in s.frames
  {
    s.(frames := s.frames[f := s.frames[f].(record := None)])
  }

  function Pin(s: State, f: nat, r: nat): State
    requires f in s.frames && r in s.heap
  {
    s.(frames := s.frames[f := s.frames[f].(record := Some(r))],
       heap := s.heap[r := s.heap[r].(references := s.heap[r].references + 1)])
  }

  /** Takes the record off the list; its owner's reference goes with it. */
  function Bury(s: State, r: nat): State
    requires r in s.heap && s.heap[r].references > 0
  {
    DropReference(s.(records := Without(s.records, r), heap := s.heap[r := s.heap[r].(life := Dead)]), r)
  }

  function NewRecord(kind: RecordKind, owner: nat, fiber: nat): Record {
    Record(kind, owner, Live, 1, fiber, false, seq(LIMIT, _ => EMPTY))
  }

  function LinkRecord(s: State, r: nat, d: Record): State {
    s.(records := [r] + s.records, heap := s.heap[r := d])
  }

  // ---- Frames ----

  function LinkFrame(s: State, f: nat, o: Frame): State
    requires o.context in s.contexts
  {
    s.(frames := s.frames[f := o],
       contexts := s.contexts[o.context := s.contexts[o.context].(cleanup := [f] + s.contexts[o.context].cleanup)])
  }

  function UnlinkFrame(s: State, f: nat): State
    requires f in s.frames && s.frames[f].context in s.contexts
  {
    var t := s.frames[f].context;
    s.(frames := s.frames - {f},
       contexts := s.contexts[t := s.contexts[t].(cleanup := Without(s.contexts[t].cleanup, f))])
  }

  // ---- Values ----

  /** Takes a value out of its record and hands it to the callback, if there is one. */
  function Take(s: State, r: nat, i: nat, callback: nat): State
    requires r in s.heap && i < |s.heap[r].cells| && i < |s.slots| && s.heap[r].cells[i].stamp < |s.history.place|
  {
    var c, epoch := s.heap[r].cells[i], s.slots[i].epoch;
    var h := s.history;
    s.(heap := s.heap[r := s.heap[r].(cells := s.heap[r].cells[i := EMPTY])],
       history := if callback == 0 then h.(place := h.place[c.stamp := Discarded])
                  else h.(place := h.place[c.stamp := Delivered],
                          delivered := h.delivered + [Delivery(c.stamp, i, epoch, callback, c.value)]))
  }

  /** Stores a value in a live record, replacing what was there. */
  function Store(s: State, r: nat, i: nat, value: nat): State
    requires r in s.heap && i < |s.slots| && i < |s.heap[r].cells|
    requires s.heap[r].cells[i].value != 0 ==> s.heap[r].cells[i].stamp < |s.history.place|
  {
    var was, stamp := s.heap[r].cells[i], |s.history.place|;
    var place := if was.value != 0 then s.history.place[was.stamp := Overwritten] else s.history.place;
    s.(heap := s.heap[r := s.heap[r].(cells := s.heap[r].cells[i := Cell(value, s.slots[i].generation, stamp)])],
       history := s.history.(stored := s.history.stored + [Stored(i, s.slots[i].epoch, value)],
                             place := place + [if value != 0 then At(r, i) else Discarded]))
  }

  function Moved(place: seq<Place>, from: nat, to: nat): (p: seq<Place>)
    ensures |p| == |place|
  {
    seq(|place|, n requires 0 <= n < |place| =>
      if place[n].At? && place[n].record == from then At(to, place[n].index) else place[n])
  }

  /** All values of one record move to another. */
  function MoveCells(s: State, from: nat, to: nat): State
    requires from in s.heap && to in s.heap && |s.heap[from].cells| == |s.heap[to].cells| == LIMIT
  {
    var a, b := s.heap[from], s.heap[to];
    s.(heap := s.heap[to := b.(cells := b.cells[..1] + a.cells[1..])][from := a.(cells := a.cells[..1] + seq(LIMIT - 1, _ => EMPTY))],
       history := s.history.(place := Moved(s.history.place, from, to)))
  }

  // ---- The locked sections ----

  /** First section of a retirement round: the frame lets go of the record its last callback came from. */
  function DropRecord(s: State, f: nat): State
    requires f in s.frames && s.frames[f].record.Some?
    requires s.frames[f].record.value in s.heap && s.heap[s.frames[f].record.value].references > 0
  {
    DropReference(Unpin(s, f), s.frames[f].record.value)
  }

  predicate Candidate(s: State, f: nat, r: nat)
    requires f in s.frames
  {
    var o := s.frames[f];
    && r in s.heap && o.index < |s.heap[r].cells| && s.heap[r].life != Dead
    && s.heap[r].cells[o.index].generation == o.generation && s.heap[r].cells[o.index].value != 0
  }

  /** Takes one value of the retiring generation out of a record, pins the record and reserves the call. */
  function Detach(s: State, f: nat, r: nat): State
    requires f in s.frames && r in s.heap && s.frames[f].index < |s.slots|
    requires s.frames[f].index < |s.heap[r].cells| && s.heap[r].cells[s.frames[f].index].stamp < |s.history.place|
  {
    var o := s.frames[f];
    var pinned := Pin(Take(s, r, o.index, o.callback), f, r);
    if o.callback == 0 then pinned else Reserve(pinned, f, o.index)
  }

  function LocalCallbacks(frames: map<nat, Frame>, list: seq<nat>, index: nat, generation: nat): nat
    requires forall f :: f in list ==> f in frames
  {
    if list == [] then 0
    else
      var o := frames[list[0]];
      (if o.reserved && o.cbIndex == index && o.cbGeneration == generation then 1 else 0)
      + LocalCallbacks(frames, list[1..], index, generation)
  }

  /** The retirement is over; the slot is free as soon as no callback is left. */
  function MarkDone(s: State, i: nat): State
    requires i < |s.slots|
  {
    var k := s.slots[i].(done := true);
    s.(slots := s.slots[i := if k.callbacks == 0 then Finished(k) else k],
       history := s.history.(returned := s.history.returned + {(i, k.epoch)}))
  }

  function FinishRetire(s: State, f: nat): State
    requires f in s.frames && s.frames[f].context in s.contexts && s.frames[f].index < |s.slots|
  {
    MarkDone(UnlinkFrame(s, f), s.frames[f].index)
  }

  /** The callback that a dying record's value goes to. */
  function RundownCallback(s: State, r: nat, i: nat): nat
    requires r in s.heap && i < |s.slots| && i < |s.heap[r].cells|
  {
    var c, k := s.heap[r].cells[i], s.slots[i];
    if c.value != 0 && k.state != Free && c.generation == k.generation then k.callback else 0
  }

  function Advance(s: State, f: nat): State
    requires f in s.frames
  {
    s.(frames := s.frames[f := s.frames[f].(index := s.frames[f].index + 1)])
  }

  function ClearGeneration(s: State, r: nat, i: nat): State
    requires r in s.heap && i < |s.heap[r].cells|
  {
    s.(heap := s.heap[r := s.heap[r].(cells := s.heap[r].cells[i := EMPTY])])
  }

  /** Clears one value of a dying record, reserving its callback when there is one. */
  function RundownCell(s: State, f: nat): State
    requires f in s.frames && s.frames[f].record.Some? && s.frames[f].record.value in s.heap
    requires s.frames[f].index < |s.slots| && s.frames[f].index < |s.heap[s.frames[f].record.value].cells|
    requires s.heap[s.frames[f].record.value].cells[s.frames[f].index].value != 0 ==>
               s.heap[s.frames[f].record.value].cells[s.frames[f].index].stamp < |s.history.place|
  {
    var r, i := s.frames[f].record.value, s.frames[f].index;
    var callback := RundownCallback(s, r, i);
    var taken := if s.heap[r].cells[i].value != 0 then Take(s, r, i, callback) else ClearGeneration(s, r, i);
    Advance(if callback == 0 then taken else Reserve(taken, f, i), f)
  }

  function FinishRundown(s: State, f: nat): State
    requires f in s.frames && s.frames[f].context in s.contexts
    requires s.frames[f].record.Some? && s.frames[f].record.value in s.heap
    requires s.heap[s.frames[f].record.value].references > 0
  {
    Bury(UnlinkFrame(s, f), s.frames[f].record.value)
  }

  function SetRetiring(s: State, i: nat): State
    requires i < |s.slots|
  {
    s.(slots := s.slots[i := s.slots[i].(state := Retiring)])
  }

  function BeginFree(s: State, t: nat, fiber: nat, i: nat, f: nat): State
    requires t in s.contexts && i < |s.slots|
  {
    var k := s.slots[i];
    LinkFrame(SetRetiring(s, i), f, Frame(t, fiber, Retire, i, k.generation, k.callback, None, false, false, 0, 0))
  }

  /** The record starts to die; a thread forgets its own record. */
  function Kill(s: State, t: nat, r: nat, nativeDelete: bool): State
    requires t in s.contexts && r in s.heap
  {
    var c := s.contexts[t];
    s.(heap := s.heap[r := s.heap[r].(life := Dying, nativeDelete := nativeDelete)],
       contexts := s.contexts[t := if c.record == Some(r) then c.(record := None) else c])
  }

  function BeginRundown(s: State, t: nat, fiber: nat, r: nat, nativeDelete: bool, waits: bool, f: nat): State
    requires t in s.contexts && r in s.heap
  {
    LinkFrame(Kill(s, t, r, nativeDelete), f, Frame(t, fiber, Rundown, 1, 0, 0, Some(r), waits, false, 0, 0))
  }

  function Allocate(s: State, i: nat, callback: nat): State
    requires i < |s.slots|
  {
    var k := s.slots[i];
    var epoch := k.epoch + 1;
    s.(slots := s.slots[i := Slot(Active, if k.generation == 0 then 1 else k.generation, k.callbacks, k.done, callback, epoch)],
       history := s.history.(registered := s.history.registered[(i, epoch) := callback]))
  }

  function SetRecord(s: State, t: nat, r: Option<nat>): State
    requires t in s.contexts
  {
    s.(contexts := s.contexts[t := s.contexts[t].(record := r)])
  }

  /** A new thread record for a thread that stores its first value. */
  function AddThreadRecord(s: State, t: nat, r: nat): State
    requires t in s.contexts
  {
    SetRecord(LinkRecord(s, r, NewRecord(ThreadRecord, t, 0)), t, Some(r))
  }

  /** The thread becomes a fiber: its values move to the fiber's record and its own record goes. */
  function Convert(s: State, t: nat, fiber: nat, r: nat): State
    requires t in s.contexts && r !in s.heap
    requires s.contexts[t].record.Some? ==>
               && s.contexts[t].record.value in s.heap && s.heap[s.contexts[t].record.value].references > 0
               && |s.heap[s.contexts[t].record.value].cells| == LIMIT
  {
    var linked := LinkRecord(s, r, NewRecord(FiberRecord, t, fiber));
    match s.contexts[t].record
    case None => linked
    case Some(was) => Bury(MoveCells(SetRecord(linked, t, None), was, r), was)
  }
}
