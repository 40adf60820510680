/**
 The fiber-local storage bridge as a state machine. Every section the program runs under its
 lock is one step; callbacks run between steps, so any linked cleanup frame may step next.
 */
module FlsState {
  import opened Options

  const LIMIT := 128
  const WORD := 0x1_0000_0000

  // ---- Data ----

  datatype SlotState = Free | Active | Retiring

  /** `epoch` is a history variable: it counts allocations and, unlike `generation`, never wraps. */
  datatype Slot = Slot(state: SlotState, generation: nat, callbacks: nat, done: bool, callback: nat, epoch: nat)

  /** A stored value; 0 is null. `stamp` is a history variable naming the store that put it there. */
  datatype Cell = Cell(value: nat, generation: nat, stamp: nat)

  datatype Life = Live | Dying | Dead

  datatype RecordKind = ThreadRecord | FiberRecord

  datatype Record = Record(kind: RecordKind, owner: nat, life: Life, references: nat, fiber: nat,
                           nativeDelete: bool, cells: seq<Cell>)

  datatype FrameKind = Retire | Rundown

  /** A stack-owned continuation of `FlsFree` or of a record's rundown. */
  datatype Frame = Frame(context: nat, fiber: nat, kind: FrameKind, index: nat, generation: nat, callback: nat,
                         record: Option<nat>, waits: bool, reserved: bool, cbIndex: nat, cbGeneration: nat)

  datatype Context = Context(record: Option<nat>, exiting: bool, cleanup: seq<nat>)

  /** Where the value of one store is now. */
  datatype Place = At(record: nat, index: nat) | Overwritten | Delivered | Discarded

  datatype Stored = Stored(index: nat, epoch: nat, value: nat)

  datatype Delivery = Delivery(stamp: nat, index: nat, epoch: nat, callback: nat, value: nat)

  type Key = (nat, nat)

  /** History variables: no step's effect on the program's own fields depends on them. */
  datatype History = History(stored: seq<Stored>, place: seq<Place>, delivered: seq<Delivery>,
                             registered: map<Key, nat>, returned: set<Key>, freed: set<nat>)

  datatype State = State(slots: seq<Slot>, records: seq<nat>, heap: map<nat, Record>, frames: map<nat, Frame>,
                         contexts: map<nat, Context>, history: History)

  const EMPTY := Cell(0, 0, 0)

  function Initial(): State {
    State(seq(LIMIT, _ => Slot(Free, 0, 0, false, 0, 0)), [], map[], map[], map[],
          History([], [], [], map[], {}, {}))
  }

  // ---- Counting ----

  ghost function Reserving(frames: map<nat, Frame>, i: nat): set<nat> {
    set f | f in frames && frames[f].reserved && frames[f].cbIndex == i
  }

  ghost function Pinning(frames: map<nat, Frame>, r: nat): set<nat> {
    set f | f in frames && frames[f].kind == Retire && frames[f].record == Some(r)
  }

  ghost predicate NoDup(s: seq<nat>) {
    forall i, j :: 0 <= i < j < |s| ==> s[i] != s[j]
  }

  function Listed(records: seq<nat>, r: nat): nat { if r in records then 1 else 0 }

  // ---- The invariant ----

  /** The callback count is the number of frames that hold a reservation on this slot. */
  ghost predicate SlotOk(s: State, i: nat)
    requires i < |s.slots|
  {
    var k := s.slots[i];
    && k.callbacks == |Reserving(s.frames, i)|
    && (k.state == Free ==> k.callbacks == 0 && k.callback == 0)
    && (k.done ==> k.state == Retiring && k.callbacks > 0)
    && (k.state != Free ==> k.generation != 0 && (i, k.epoch) in s.history.registered
                            && s.history.registered[(i, k.epoch)] == k.callback)
    && (k.state != Free && (i, k.epoch) in s.history.returned ==> k.done)
    && k.generation < WORD
  }

  /** Epochs only grow, and a retirement is recorded for registered epochs only. */
  ghost predicate EpochOk(s: State, key: Key) {
    && (key in s.history.registered ==> key.0 < |s.slots| && key.1 <= s.slots[key.0].epoch)
    && (key in s.history.returned ==> key in s.history.registered)
  }

  ghost predicate FrameOk(s: State, f: nat)
    requires f in s.frames && |s.slots| == LIMIT
  {
    var o := s.frames[f];
    && 1 <= o.index <= LIMIT
    && (o.reserved ==> o.cbIndex < LIMIT && o.cbGeneration == s.slots[o.cbIndex].generation
                       && s.slots[o.cbIndex].state != Free)
    && o.context in s.contexts && f in s.contexts[o.context].cleanup
    && match o.kind
       case Retire =>
         && o.index < LIMIT && s.slots[o.index].state == Retiring && !s.slots[o.index].done
         && o.generation == s.slots[o.index].generation && o.callback == s.slots[o.index].callback
         && (o.record.Some? ==> o.record.value in s.heap)
       case Rundown =>
         && o.record.Some? && o.record.value in s.heap
         && s.heap[o.record.value].life == Dying && |s.heap[o.record.value].cells| == LIMIT
         && forall j :: 0 <= j < o.index ==> s.heap[o.record.value].cells[j].value == 0
  }

  /** At most one frame retires a slot, and at most one runs a record down. */
  ghost predicate FramesApart(s: State, f: nat, g: nat)
    requires f in s.frames && g in s.frames
  {
    var a, b := s.frames[f], s.frames[g];
    f != g && a.kind == b.kind ==> if a.kind == Retire then a.index != b.index else a.record != b.record
  }

  /** References count list membership plus the retirement frames that pin the record. */
  ghost predicate RecordOk(s: State, r: nat)
    requires r in s.heap
  {
    var d := s.heap[r];
    && d.references == Listed(s.records, r) + |Pinning(s.frames, r)| > 0
    && (d.life == Dead <==> r !in s.records)
    && |d.cells| == LIMIT && d.cells[0].value == 0
    && (d.life == Dead ==> forall j :: 0 <= j < LIMIT ==> d.cells[j].value == 0)
    && r !in s.history.freed
  }

  /** A stored value belongs to the current epoch of a slot whose retirement is not over. */
  ghost predicate CellOk(s: State, r: nat, i: nat)
    requires r in s.heap && |s.slots| == LIMIT
  {
    i < LIMIT && i < |s.heap[r].cells| && s.heap[r].cells[i].value != 0 ==>
      var c, k := s.heap[r].cells[i], s.slots[i];
      && k.state != Free && !k.done && c.generation == k.generation
      && c.stamp < |s.history.stored| && c.stamp < |s.history.place|
      && s.history.stored[c.stamp] == Stored(i, k.epoch, c.value)
      && s.history.place[c.stamp] == At(r, i)
  }

  ghost predicate Handed(h: History, n: nat) {
    exists k :: 0 <= k < |h.delivered| && h.delivered[k].stamp == n
  }

  /** The value of no callback: null, or stored while the slot had no callback registered. */
  ghost predicate Ownerless(h: History, n: nat)
    requires n < |h.stored|
  {
    var d := h.stored[n];
    d.value != 0 ==> (d.index, d.epoch) in h.registered && h.registered[(d.index, d.epoch)] == 0
  }

  /** A value is where its history says: still held, handed over, or dropped for want of a callback. */
  ghost predicate PlaceOk(s: State, n: nat)
    requires n < |s.history.place|
  {
    match s.history.place[n]
    case At(r, i) => r in s.heap && i < |s.heap[r].cells| && s.heap[r].cells[i].stamp == n && s.heap[r].cells[i].value != 0
    case Overwritten => true
    case Delivered => Handed(s.history, n)
    case Discarded => n < |s.history.stored| && Ownerless(s.history, n)
  }

  /** Every delivery handed a value, once, to the callback registered for the epoch it was stored in. */
  ghost predicate DeliveryOk(s: State, k: nat)
    requires k < |s.history.delivered|
  {
    var d := s.history.delivered[k];
    && d.stamp < |s.history.stored| && d.stamp < |s.history.place|
    && s.history.stored[d.stamp] == Stored(d.index, d.epoch, d.value)
    && s.history.place[d.stamp] == Delivered
    && (d.index, d.epoch) in s.history.registered && s.history.registered[(d.index, d.epoch)] == d.callback
    && d.value != 0 && d.callback != 0
  }

  ghost predicate DeliveredOnce(s: State) {
    forall j, k :: 0 <= j < k < |s.history.delivered| ==> s.history.delivered[j].stamp != s.history.delivered[k].stamp
  }

  ghost predicate ContextOk(s: State, t: nat)
    requires t in s.contexts
  {
    var c := s.contexts[t];
    && NoDup(c.cleanup)
    && (forall f :: f in c.cleanup ==> f in s.frames && s.frames[f].context == t)
    && (c.record.Some? ==>
          && c.record.value in s.heap && s.heap[c.record.value].life == Live
          && s.heap[c.record.value].kind == ThreadRecord && s.heap[c.record.value].owner == t)
  }

  ghost predicate Shape(s: State) {
    && |s.slots| == LIMIT && |s.history.place| == |s.history.stored|
    && NoDup(s.records) && (forall r :: r in s.records ==> r in s.heap)
    && DeliveredOnce(s)
  }

  ghost predicate SlotsOk(s: State) { forall i: nat :: i < |s.slots| ==> SlotOk(s, i) }
  ghost predicate EpochsOk(s: State) { forall key :: EpochOk(s, key) }
  ghost predicate FramesOk(s: State)
    requires |s.slots| == LIMIT
  {
    && (forall f :: f in s.frames ==> FrameOk(s, f))
    && (forall f, g {:trigger FramesApart(s, f, g)} :: f in s.frames && g in s.frames ==> FramesApart(s, f, g))
  }
  ghost predicate RecordsOk(s: State) { forall r :: r in s.heap ==> RecordOk(s, r) }
  ghost predicate CellsOk(s: State)
    requires |s.slots| == LIMIT
  {
    forall r, i: nat :: r in s.heap ==> CellOk(s, r, i)
  }
  ghost predicate PlacesOk(s: State) { forall n: nat :: n < |s.history.place| ==> PlaceOk(s, n) }
  ghost predicate DeliveriesOk(s: State) { forall k: nat :: k < |s.history.delivered| ==> DeliveryOk(s, k) }
  ghost predicate ContextsOk(s: State) { forall t :: t in s.contexts ==> ContextOk(s, t) }

  ghost predicate Inv(s: State) {
    && Shape(s) && SlotsOk(s) && EpochsOk(s) && FramesOk(s) && RecordsOk(s) && CellsOk(s)
    && PlacesOk(s) && DeliveriesOk(s) && ContextsOk(s)
  }

  lemma InitialInv()
    ensures Inv(Initial())
  {
    forall i: nat | i < LIMIT ensures SlotOk(Initial(), i) {
      assert Reserving(map[], i) == {};
    }
  }
}
