/**
 The object table behind NT-style handles: generation-tagged slots, leases that outlive a
 close, and event objects. Every call runs under the table's lock, so calls are the steps.
 */
module HandleTable {
  import opened Options

  const SLOTS := 64
  const GENERATIONS := 0x1_0000
  const MAX_REFERENCES := 0xFFFF_FFFF

  datatype Right = Query | Modify | Wait

  datatype Status = Ok | Pending | Invalid | NoMemory | BadHandle | AccessDenied | Busy

  datatype Object = Object(generation: nat, references: nat, access: set<Right>, occupied: bool, open: bool,
                           manual: bool, signaled: bool)

  datatype Lease = Lease(index: nat, generation: nat)

  /** Everything after `leases` is history: handles issued, closed and auto-reset, and each event's signals and grants. */
  datatype Table = Table(active: bool, objects: seq<Object>, leases: map<nat, Lease>,
                         issued: set<nat>, closed: set<nat>, autos: set<nat>,
                         signals: map<nat, nat>, grants: map<nat, nat>)

  const UNUSED := Object(0, 0, {}, false, false, false, false)

  function Initial(): Table {
    Table(true, seq(SLOTS, _ => UNUSED), map[], {}, {}, {}, map[], map[])
  }

  // ---- Handles ----

  function HandleOf(index: nat, generation: nat): nat { generation * GENERATIONS + index + 1 }

  function IndexOf(h: nat): nat { h % GENERATIONS }

  function GenerationOf(h: nat): nat { h / GENERATIONS }

  lemma HandleParts(index: nat, generation: nat)
    requires index < SLOTS
    ensures IndexOf(HandleOf(index, generation)) == index + 1 && GenerationOf(HandleOf(index, generation)) == generation
  {
  }

  lemma HandleWhole(h: nat)
    requires IndexOf(h) > 0
    ensures HandleOf(IndexOf(h) - 1, GenerationOf(h)) == h
  {
  }

  /** The slot that an open handle names. */
  function Slot(t: Table, h: nat): Option<nat>
    requires |t.objects| == SLOTS
  {
    var index, generation := IndexOf(h), GenerationOf(h);
    if index == 0 || index > SLOTS || generation == 0 then None
    else
      var o := t.objects[index - 1];
      if !o.occupied || !o.open || o.generation != generation then None else Some(index - 1)
  }

  function Lookup(t: Table, h: nat, access: set<Right>): Status
    requires |t.objects| == SLOTS
  {
    match Slot(t, h)
    case None => BadHandle
    case Some(i) => if access <= t.objects[i].access then Ok else AccessDenied
  }

  // ---- Calls ----

  datatype Call =
    | Create(manual: bool, signaled: bool, access: set<Right>)
    | Reference(h: nat, access: set<Right>, lease: nat)
    | Dereference(lease: nat)
    | Close(h: nat)
    | SetEvent(h: nat)
    | ResetEvent(h: nat)
    | QueryEvent(h: nat)
    | TryWait(h: nat)
    | Shutdown

  datatype Reply = Reply(status: Status, value: nat)

  /** The first slot that is free and whose generations are not used up. */
  function FreeSlot(objects: seq<Object>, from: nat): (i: nat)
    requires from <= |objects|
    ensures from <= i <= |objects|
    ensures i < |objects| ==> !objects[i].occupied && objects[i].generation != GENERATIONS - 1
    decreases |objects| - from
  {
    if from == |objects| || (!objects[from].occupied && objects[from].generation != GENERATIONS - 1) then from
    else FreeSlot(objects, from + 1)
  }

  function Put(t: Table, i: nat, o: Object): Table
    requires i < |t.objects|
  {
    t.(objects := t.objects[i := o])
  }

  function DoCreate(t: Table, manual: bool, signaled: bool, access: set<Right>): (Table, Reply) {
    var i := FreeSlot(t.objects, 0);
    if i == |t.objects| then (t, Reply(NoMemory, 0))
    else
      var generation := t.objects[i].generation + 1;
      var h := HandleOf(i, generation);
      (Put(t, i, Object(generation, 1, access, true, true, manual, signaled))
       .(issued := t.issued + {h}, autos := if manual then t.autos else t.autos + {h}, signals := t.signals[h := if signaled then 1 else 0], grants := t.grants[h := 0]),
       Reply(Ok, h))
  }

  function DoReference(t: Table, h: nat, access: set<Right>, lease: nat): (Table, Reply)
    requires |t.objects| == SLOTS
  {
    var status := Lookup(t, h, access);
    if lease in t.leases then (t, Reply(Invalid, 0))
    else if status != Ok then (t, Reply(status, 0))
    else
      var i := Slot(t, h).value;
      var o := t.objects[i];
      if o.references == MAX_REFERENCES then (t, Reply(NoMemory, 0))
      else (Put(t, i, o.(references := o.references + 1)).(leases := t.leases[lease := Lease(i, GenerationOf(h))]), Reply(Ok, 0))
  }

  /** One reference less; the last one frees the slot. */
  function Dropped(o: Object): Object
    requires o.references > 0
  {
    o.(references := o.references - 1, occupied := o.occupied && o.references != 1)
  }

  function DoDereference(t: Table, lease: nat): (Table, Reply)
    requires |t.objects| == SLOTS
  {
    if lease !in t.leases || t.leases[lease].index >= SLOTS then (t, Reply(Invalid, 0))
    else
      var l := t.leases[lease];
      var o := t.objects[l.index];
      if o.occupied && o.generation == l.generation && o.references > (if o.open then 1 else 0) then
        (Put(t, l.index, Dropped(o)).(leases := t.leases - {lease}), Reply(Ok, 0))
      else (t, Reply(BadHandle, 0))
  }

  function DoClose(t: Table, h: nat): (Table, Reply)
    requires |t.objects| == SLOTS
  {
    match Slot(t, h)
    case None => (t, Reply(BadHandle, 0))
    case Some(i) =>
      var o := t.objects[i];
      if o.references == 0 then (t, Reply(Ok, 0))
      else (Put(t, i, Dropped(o.(open := false))).(closed := t.closed + {h}), Reply(Ok, 0))
  }

  function Counted(m: map<nat, nat>, h: nat): nat { if h in m then m[h] else 0 }

  function DoEvent(t: Table, call: Call): (Table, Reply)
    requires |t.objects| == SLOTS && (call.SetEvent? || call.ResetEvent? || call.QueryEvent? || call.TryWait?)
  {
    var h := call.h;
    var access := if call.QueryEvent? then {Query} else if call.TryWait? then {Wait} else {Modify};
    var status := Lookup(t, h, access);
    if status != Ok then (t, Reply(status, 0))
    else
      var i := Slot(t, h).value;
      var o := t.objects[i];
      var value := if o.signaled then 1 else 0;
      if call.SetEvent? then
        (Put(t, i, o.(signaled := true)).(signals := t.signals[h := Counted(t.signals, h) + 1]), Reply(Ok, value))
      else if call.ResetEvent? then (Put(t, i, o.(signaled := false)), Reply(Ok, value))
      else if call.QueryEvent? then (t, Reply(Ok, value))
      else if !o.signaled then (t, Reply(Pending, value))
      else (Put(t, i, o.(signaled := o.manual)).(grants := t.grants[h := Counted(t.grants, h) + 1]), Reply(Ok, value))
  }

  function Do(t: Table, call: Call): (Table, Reply)
    requires |t.objects| == SLOTS
  {
    if !t.active then (t, Reply(Invalid, 0))
    else match call
         case Create(manual, signaled, access) => DoCreate(t, manual, signaled, access)
         case Reference(h, access, lease) => DoReference(t, h, access, lease)
         case Dereference(lease) => DoDereference(t, lease)
         case Close(h) => DoClose(t, h)
         case Shutdown =>
           if exists i :: 0 <= i < SLOTS && t.objects[i].occupied then (t, Reply(Busy, 0)) else (t.(active := false), Reply(Ok, 0))
         case _ => DoEvent(t, call)
  }

  // ---- Invariant ----

  ghost function LeasesOf(t: Table, i: nat): set<nat> {
    set l | l in t.leases && t.leases[l].index == i
  }

  /** References are the open handle plus the live leases, and a slot is occupied while it has any. */
  ghost predicate ObjectOk(t: Table, i: nat)
    requires i < |t.objects|
  {
    var o := t.objects[i];
    && o.generation < GENERATIONS
    && o.references == (if o.open then 1 else 0) + |LeasesOf(t, i)|
    && (o.occupied <==> o.references > 0)
    && (o.occupied ==> o.generation > 0)
  }

  ghost predicate LeaseOk(t: Table, l: nat)
    requires l in t.leases
  {
    t.leases[l].index < |t.objects| && t.objects[t.leases[l].index].generation == t.leases[l].generation
  }

  /** What the history says of one handle, read off the table. */
  ghost predicate HandleOk(t: Table, i: nat, g: nat)
    requires i < |t.objects|
  {
    var h, o := HandleOf(i, g), t.objects[i];
    && (h in t.issued <==> 1 <= g <= o.generation)
    && (h in t.closed <==> 1 <= g <= o.generation && !(g == o.generation && o.open))
  }

  /** An auto-reset event never grants more waits than it got signals. */
  ghost predicate EventOk(t: Table, i: nat)
    requires i < |t.objects|
  {
    var o := t.objects[i];
    var h := HandleOf(i, o.generation);
    && (o.open ==> (h in t.autos <==> !o.manual))
    && (o.open && !o.manual ==> Counted(t.grants, h) + (if o.signaled then 1 else 0) <= Counted(t.signals, h))
  }

  ghost predicate AutosOk(t: Table) {
    forall h :: h in t.autos ==> h in t.issued && Counted(t.grants, h) <= Counted(t.signals, h)
  }

  ghost predicate ObjectsOk(t: Table) { forall i: nat :: i < |t.objects| ==> ObjectOk(t, i) }
  ghost predicate LeasesOk(t: Table) { forall l :: l in t.leases ==> LeaseOk(t, l) }
  ghost predicate HandlesOk(t: Table) { forall i: nat, g: nat :: i < |t.objects| ==> HandleOk(t, i, g) }
  ghost predicate EventsOk(t: Table) { forall i: nat :: i < |t.objects| ==> EventOk(t, i) }

  ghost predicate IssuedOk(t: Table) {
    forall h :: h in t.issued || h in t.closed ==> 1 <= IndexOf(h) <= SLOTS
  }

  ghost predicate Inv(t: Table) {
    && |t.objects| == SLOTS && ObjectsOk(t) && LeasesOk(t) && HandlesOk(t) && EventsOk(t) && AutosOk(t) && IssuedOk(t)
  }

  lemma InitialInv()
    ensures Inv(Initial())
  {
    forall i: nat | i < SLOTS ensures ObjectOk(Initial(), i) {
      assert LeasesOf(Initial(), i) == {};
    }
  }

  // ---- A slot changes; the others do not ----

  lemma OtherHandles(i: nat, g: nat, j: nat, k: nat)
    requires i < SLOTS && j < SLOTS && HandleOf(i, g) == HandleOf(j, k)
    ensures i == j && g == k
  {
    HandleParts(i, g);
    HandleParts(j, k);
  }

  lemma SameLeases(t: Table, t': Table, i: nat)
    requires t'.leases == t.leases
    ensures LeasesOf(t', i) == LeasesOf(t, i)
  {
  }

  lemma SlotFacts(t: Table, h: nat)
    requires |t.objects| == SLOTS && Slot(t, h).Some?
    ensures var i := Slot(t, h).value;
      i < SLOTS && t.objects[i].open && t.objects[i].occupied && h == HandleOf(i, t.objects[i].generation)
      && GenerationOf(h) == t.objects[i].generation && IndexOf(h) == i + 1
  {
    HandleWhole(h);
  }

  lemma LeasesHas(t: Table, i: nat, l: nat)
    ensures l in LeasesOf(t, i) <==> l in t.leases && t.leases[l].index == i
  {
  }

  lemma CreateKeeps(t: Table, manual: bool, signaled: bool, access: set<Right>)
    requires Inv(t)
    ensures Inv(DoCreate(t, manual, signaled, access).0)
    ensures var r := DoCreate(t, manual, signaled, access).1; r.status == Ok ==> r.value !in t.issued
  {
    var i := FreeSlot(t.objects, 0);
    if i < SLOTS {
      var t' := DoCreate(t, manual, signaled, access).0;
      var generation := t'.objects[i].generation;
      assert ObjectOk(t, i) && HandleOk(t, i, generation);
      forall j: nat | j < SLOTS ensures ObjectOk(t', j) && EventOk(t', j) {
        assert ObjectOk(t, j) && EventOk(t, j);
        SameLeases(t, t', j);
        if HandleOf(j, t'.objects[j].generation) == HandleOf(i, generation) {
          OtherHandles(j, t'.objects[j].generation, i, generation);
        }
      }
      forall j: nat, g: nat | j < SLOTS ensures HandleOk(t', j, g) {
        assert HandleOk(t, j, g);
        if HandleOf(j, g) == HandleOf(i, generation) {
          OtherHandles(j, g, i, generation);
        }
      }
      assert LeasesOf(t, i) == {};
      forall l | l in t'.leases ensures LeaseOk(t', l) {
        assert LeaseOk(t, l);
        LeasesHas(t, i, l);
      }
      HandleParts(i, generation);
    }
  }

  lemma ReferenceKeeps(t: Table, h: nat, access: set<Right>, lease: nat)
    requires Inv(t)
    ensures Inv(DoReference(t, h, access, lease).0)
  {
    var t' := DoReference(t, h, access, lease).0;
    if t' != t {
      SlotFacts(t, h);
      var i := Slot(t, h).value;
      forall j: nat | j < SLOTS ensures ObjectOk(t', j) && EventOk(t', j) {
        assert ObjectOk(t, j) && EventOk(t, j);
        assert LeasesOf(t', j) == if j == i then LeasesOf(t, j) + {lease} else LeasesOf(t, j);
      }
      forall j: nat, g: nat | j < SLOTS ensures HandleOk(t', j, g) {
        assert HandleOk(t, j, g);
      }
      forall l | l in t'.leases ensures LeaseOk(t', l) {
        assert l != lease ==> LeaseOk(t, l);
      }
    }
  }

  /** A live lease always gives its reference back. */
  lemma DereferenceKeeps(t: Table, lease: nat)
    requires Inv(t)
    ensures Inv(DoDereference(t, lease).0)
    ensures lease in t.leases ==> DoDereference(t, lease).1.status == Ok && lease !in DoDereference(t, lease).0.leases
  {
    if lease in t.leases {
      var i := t.leases[lease].index;
      assert LeaseOk(t, lease) && ObjectOk(t, i);
      assert lease in LeasesOf(t, i);
      var t' := DoDereference(t, lease).0;
      forall j: nat | j < SLOTS ensures ObjectOk(t', j) && EventOk(t', j) {
        assert ObjectOk(t, j) && EventOk(t, j);
        assert LeasesOf(t', j) == if j == i then LeasesOf(t, j) - {lease} else LeasesOf(t, j);
      }
      forall j: nat, g: nat | j < SLOTS ensures HandleOk(t', j, g) {
        assert HandleOk(t, j, g);
      }
      forall l | l in t'.leases ensures LeaseOk(t', l) {
        assert LeaseOk(t, l);
      }
    }
  }

  lemma CloseKeeps(t: Table, h: nat)
    requires Inv(t)
    ensures Inv(DoClose(t, h).0)
    ensures Slot(t, h).Some? ==> h in DoClose(t, h).0.closed
  {
    if Slot(t, h).Some? {
      SlotFacts(t, h);
      var i, t' := Slot(t, h).value, DoClose(t, h).0;
      assert ObjectOk(t, i);
      forall j: nat | j < SLOTS ensures ObjectOk(t', j) && EventOk(t', j) {
        assert ObjectOk(t, j) && EventOk(t, j);
        SameLeases(t, t', j);
      }
      forall j: nat, g: nat | j < SLOTS ensures HandleOk(t', j, g) {
        assert HandleOk(t, j, g);
        if HandleOf(j, g) == h {
          OtherHandles(j, g, i, t.objects[i].generation);
        }
      }
      forall l | l in t'.leases ensures LeaseOk(t', l) {
        assert LeaseOk(t, l);
      }
    }
  }

  lemma EventKeeps(t: Table, call: Call)
    requires Inv(t) && (call.SetEvent? || call.ResetEvent? || call.QueryEvent? || call.TryWait?)
    ensures Inv(DoEvent(t, call).0)
  {
    var h, t' := call.h, DoEvent(t, call).0;
    if t' != t {
      SlotFacts(t, h);
      var i := Slot(t, h).value;
      assert EventOk(t, i);
      forall x | x in t'.autos ensures x in t'.issued && Counted(t'.grants, x) <= Counted(t'.signals, x) {
        assert Counted(t.grants, x) <= Counted(t.signals, x);
      }
      forall j: nat | j < SLOTS ensures ObjectOk(t', j) && EventOk(t', j) {
        assert ObjectOk(t, j) && EventOk(t, j);
        SameLeases(t, t', j);
        if HandleOf(j, t.objects[j].generation) == h {
          OtherHandles(j, t.objects[j].generation, i, t.objects[i].generation);
        }
      }
      forall j: nat, g: nat | j < SLOTS ensures HandleOk(t', j, g) {
        assert HandleOk(t, j, g);
      }
      forall l | l in t'.leases ensures LeaseOk(t', l) {
        assert LeaseOk(t, l);
      }
    }
  }

  lemma ShutdownKeeps(t: Table)
    requires Inv(t)
    ensures Inv(t.(active := false))
  {
    var t' := t.(active := false);
    forall j: nat | j < SLOTS ensures ObjectOk(t', j) && EventOk(t', j) {
      assert ObjectOk(t, j) && EventOk(t, j);
      SameLeases(t, t', j);
    }
    forall j: nat, g: nat | j < SLOTS ensures HandleOk(t', j, g) {
      assert HandleOk(t, j, g);
    }
    forall l | l in t'.leases ensures LeaseOk(t', l) {
      assert LeaseOk(t, l);
    }
  }

  lemma StepKeeps(t: Table, call: Call)
    requires Inv(t)
    ensures Inv(Do(t, call).0)
    ensures t.active && call.Create? && Do(t, call).1.status == Ok ==> Do(t, call).1.value !in t.issued
  {
    hide Inv, DoCreate, DoReference, DoDereference, DoClose, DoEvent;
    assert |t.objects| == SLOTS by { Size(t); }
    if t.active {
      match call
      case Create(manual, signaled, access) => CreateKeeps(t, manual, signaled, access);
      case Reference(h, access, lease) => ReferenceKeeps(t, h, access, lease);
      case Dereference(lease) => DereferenceKeeps(t, lease);
      case Close(h) => CloseKeeps(t, h);
      case Shutdown => ShutdownKeeps(t);
      case _ => EventKeeps(t, call);
    }
  }

  lemma Size(t: Table)
    requires Inv(t)
    ensures |t.objects| == SLOTS
  {
  }

  // ---- What callers may rely on ----

  /** A handle resolves exactly while it is issued and not closed. */
  lemma ResolvesIff(t: Table, h: nat)
    requires Inv(t)
    ensures Slot(t, h).Some? <==> h in t.issued && h !in t.closed
  {
    if Slot(t, h).Some? {
      SlotFacts(t, h);
      var i := Slot(t, h).value;
      assert HandleOk(t, i, t.objects[i].generation) && ObjectOk(t, i);
    }
    if h in t.issued && h !in t.closed {
      var i, g := IndexOf(h) - 1, GenerationOf(h);
      HandleWhole(h);
      assert HandleOk(t, i, g) && ObjectOk(t, i);
    }
  }

  lemma LeasedIsOccupied(t: Table, l: nat)
    requires Inv(t)
    ensures l in t.leases ==> t.leases[l].index < SLOTS && t.objects[t.leases[l].index].occupied
  {
    if l in t.leases {
      assert LeaseOk(t, l) && ObjectOk(t, t.leases[l].index);
      LeasesHas(t, t.leases[l].index, l);
    }
  }

  /** Shutdown succeeds exactly when nothing is open or leased. */
  lemma ShutdownIff(t: Table)
    requires Inv(t) && t.active
    ensures Do(t, Shutdown).1.status == Ok <==> t.leases == map[] && t.issued == t.closed
  {
    if exists i :: 0 <= i < SLOTS && t.objects[i].occupied {
      var i :| 0 <= i < SLOTS && t.objects[i].occupied;
      assert ObjectOk(t, i) && HandleOk(t, i, t.objects[i].generation);
      if !t.objects[i].open {
        assert LeasesOf(t, i) != {};
      } else {
        assert HandleOf(i, t.objects[i].generation) in t.issued;
      }
    } else {
      assert t.leases == map[] by {
        forall l ensures l !in t.leases {
          LeasedIsOccupied(t, l);
        }
      }
      forall h ensures h in t.issued <==> h in t.closed {
        if 1 <= IndexOf(h) <= SLOTS {
          HandleWhole(h);
          assert HandleOk(t, IndexOf(h) - 1, GenerationOf(h)) && ObjectOk(t, IndexOf(h) - 1);
        }
      }
    }
  }

  // ---- Runs ----

  ghost predicate Run(ts: seq<Table>, calls: seq<Call>) {
    && |ts| == |calls| + 1 && ts[0] == Initial()
    && forall i :: 0 <= i < |calls| ==> |ts[i].objects| == SLOTS && ts[i + 1] == Do(ts[i], calls[i]).0
  }

  lemma {:induction false} RunKeeps(ts: seq<Table>, calls: seq<Call>, n: nat)
    requires Run(ts, calls) && n <= |calls|
    ensures Inv(ts[n])
  {
    hide Inv, Do;
    if n == 0 {
      InitialInv();
    } else {
      RunKeeps(ts, calls, n - 1);
      StepKeeps(ts[n - 1], calls[n - 1]);
    }
  }

  lemma {:induction false} IssuedGrows(ts: seq<Table>, calls: seq<Call>, m: nat, n: nat)
    requires Run(ts, calls) && m <= n <= |calls|
    ensures ts[m].issued <= ts[n].issued && ts[m].closed <= ts[n].closed
    decreases n - m
  {
    if m < n {
      IssuedGrows(ts, calls, m, n - 1);
      assert ts[n] == Do(ts[n - 1], calls[n - 1]).0;
    }
  }

  ghost predicate Issues(t: Table, call: Call)
    requires |t.objects| == SLOTS
  {
    t.active && call.Create? && Do(t, call).1.status == Ok
  }

  /** Over any run all issued handles are distinct. */
  lemma HandlesAreDistinct(ts: seq<Table>, calls: seq<Call>, m: nat, n: nat)
    requires Run(ts, calls) && m < n < |calls| && Issues(ts[m], calls[m]) && Issues(ts[n], calls[n])
    ensures Do(ts[m], calls[m]).1.value != Do(ts[n], calls[n]).1.value
  {
    RunKeeps(ts, calls, n);
    StepKeeps(ts[n], calls[n]);
    assert Do(ts[m], calls[m]).1.value in ts[m + 1].issued;
    IssuedGrows(ts, calls, m + 1, n);
  }

  /** Over any run an auto-reset event, open or closed, has granted at most its initial signal plus its sets. */
  lemma GrantsAreBounded(ts: seq<Table>, calls: seq<Call>, n: nat, h: nat)
    requires Run(ts, calls) && n <= |calls| && h in ts[n].autos
    ensures h in ts[n].issued && Counted(ts[n].grants, h) <= Counted(ts[n].signals, h)
  {
    hide Do;
    RunKeeps(ts, calls, n);
  }
}
