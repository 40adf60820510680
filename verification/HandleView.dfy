/**
 The object table seen from outside: a map from open handles to events. Every call answers and
 acts as if it worked on that map.
 */
module HandleView {
  import opened Options
  import opened HandleTable

  datatype Event = Event(access: set<Right>, manual: bool, signaled: bool)

  type Events = map<nat, Event>

  /** The events behind the handles issued and not closed. */
  ghost function View(t: Table): Events
    requires |t.objects| == SLOTS
  {
    map h | h in t.issued && h !in t.closed :: EventOf(t, h)
  }

  ghost function EventOf(t: Table, h: nat): Event
    requires |t.objects| == SLOTS
  {
    match Slot(t, h)
    case Some(i) => Event(t.objects[i].access, t.objects[i].manual, t.objects[i].signaled)
    case None => Event({}, false, false)
  }

  // ---- What each call does to the map ----

  /** A handle that is not open, or lacks a right, is refused; the first check that fails names the status. */
  function Refusal(v: Events, h: nat, access: set<Right>): Status {
    if h !in v then BadHandle else if !(access <= v[h].access) then AccessDenied else Ok
  }

  function RightFor(call: Call): Right { if call.QueryEvent? then Query else if call.TryWait? then Wait else Modify }

  predicate IsEventCall(call: Call) { call.SetEvent? || call.ResetEvent? || call.QueryEvent? || call.TryWait? }

  /** Set and reset answer the old signal; a wait takes the signal of an auto-reset event, or is pending without one. */
  function EventReply(v: Events, call: Call): Reply
    requires IsEventCall(call)
  {
    var status := Refusal(v, call.h, {RightFor(call)});
    if status != Ok then Reply(status, 0)
    else Reply(if call.TryWait? && !v[call.h].signaled then Pending else Ok, if v[call.h].signaled then 1 else 0)
  }

  function EventEffect(v: Events, call: Call): Events
    requires IsEventCall(call)
  {
    var h := call.h;
    if Refusal(v, h, {RightFor(call)}) != Ok then v
    else match call
         case SetEvent(_) => v[h := v[h].(signaled := true)]
         case ResetEvent(_) => v[h := v[h].(signaled := false)]
         case TryWait(_) => v[h := v[h].(signaled := v[h].signaled && v[h].manual)]
         case _ => v
  }

  // ---- Slots ----

  /** The slot of one handle changes and stays that handle's; every other handle keeps its event. */
  lemma ViewPut(t: Table, t': Table, h: nat)
    requires Inv(t) && Slot(t, h).Some? && |t'.objects| == SLOTS && t'.issued == t.issued && t'.closed == t.closed
    requires var i := Slot(t, h).value;
      && (forall j :: 0 <= j < SLOTS && j != i ==> t'.objects[j] == t.objects[j])
      && t'.objects[i].occupied && t'.objects[i].open && t'.objects[i].generation == t.objects[i].generation
    ensures h in View(t) && View(t)[h] == EventOf(t, h)
    ensures View(t') == View(t)[h := EventOf(t', h)]
  {
    Size(t);
    hide Inv;
    ResolvesIff(t, h);
    SlotFacts(t, h);
    forall x | x in View(t) && x != h ensures EventOf(t', x) == EventOf(t, x) {
      ResolvesIff(t, x);
      SlotFacts(t, x);
      HandleWhole(x);
    }
  }

  lemma ViewHas(t: Table, h: nat)
    requires Inv(t)
    ensures h in View(t) <==> Slot(t, h).Some?
    ensures h in View(t) ==> View(t)[h] == EventOf(t, h)
    ensures forall access :: Lookup(t, h, access) == Refusal(View(t), h, access)
  {
    hide Inv;
    ResolvesIff(t, h);
  }

  // ---- The calls ----

  lemma EventIs(t: Table, call: Call)
    requires Inv(t) && t.active && IsEventCall(call)
    ensures Do(t, call).1 == EventReply(View(t), call) && View(Do(t, call).0) == EventEffect(View(t), call)
  {
    Size(t);
    hide Inv;
    ViewHas(t, call.h);
    if Refusal(View(t), call.h, {RightFor(call)}) == Ok {
      SlotFacts(t, call.h);
      ViewPut(t, t, call.h);
      ViewPut(t, Do(t, call).0, call.h);
    }
  }

  /** Every set counts as a signal and every granted wait as a grant. */
  lemma CountsAre(t: Table, call: Call)
    requires Inv(t) && t.active && IsEventCall(call)
    ensures var t', ok := Do(t, call).0, EventReply(View(t), call).status == Ok;
      && t'.signals == (if ok && call.SetEvent? then t.signals[call.h := Counted(t.signals, call.h) + 1] else t.signals)
      && t'.grants == (if ok && call.TryWait? then t.grants[call.h := Counted(t.grants, call.h) + 1] else t.grants)
  {
    Size(t);
    hide Inv;
    ViewHas(t, call.h);
  }

  /** A slot can take an event if it is free and its generations are not used up. */
  predicate CanHold(o: Object) { !o.occupied && o.generation + 1 < 0x1_0000 }

  lemma {:induction false} FreeSlotIs(objects: seq<Object>, from: nat)
    requires from <= |objects| && forall i :: 0 <= i < |objects| ==> objects[i].generation < 0x1_0000
    ensures var i := FreeSlot(objects, from);
      && (forall j :: from <= j < i ==> !CanHold(objects[j])) && (i < |objects| ==> CanHold(objects[i]))
    decreases |objects| - from
  {
    if from < |objects| {
      FreeSlotIs(objects, from + 1);
    }
  }

  lemma Generations(t: Table)
    requires Inv(t)
    ensures |t.objects| == SLOTS && forall i :: 0 <= i < |t.objects| ==> t.objects[i].generation < 0x1_0000
  {
    forall i: nat | i < |t.objects| ensures t.objects[i].generation < 0x1_0000 {
      assert ObjectOk(t, i);
    }
  }

  /** An event is created unless every slot is taken or used up; its handle is new and opens exactly it. */
  lemma CreateIs(t: Table, manual: bool, signaled: bool, access: set<Right>)
    requires Inv(t) && t.active
    ensures var (t', r) := Do(t, Create(manual, signaled, access));
      && |t'.objects| == SLOTS
      && (r.status == Ok <==> exists i :: 0 <= i < SLOTS && CanHold(t.objects[i]))
      && (r.status == Ok ==> r.value !in t.issued && r.value !in t.closed && View(t') == View(t)[r.value := Event(access, manual, signaled)])
      && (r.status != Ok ==> r == Reply(NoMemory, 0) && t' == t)
      && (r.status == Ok ==> t'.signals == t.signals[r.value := if signaled then 1 else 0] && t'.grants == t.grants[r.value := 0]
                             && t'.autos == if manual then t.autos else t.autos + {r.value})
      && t'.leases == t.leases
  {
    Generations(t);
    FreeSlotIs(t.objects, 0);
    CreateKeeps(t, manual, signaled, access);
    hide Inv;
    var (t', r) := Do(t, Create(manual, signaled, access));
    if r.status == Ok {
      var i := FreeSlot(t.objects, 0);
      NewHandle(t, i);
      HandleParts(i, t.objects[i].generation + 1);
      assert Slot(t', r.value) == Some(i);
      forall x | x in View(t) ensures EventOf(t', x) == EventOf(t, x) {
        ResolvesIff(t, x);
        SlotFacts(t, x);
      }
    }
  }

  lemma NewHandle(t: Table, i: nat)
    requires Inv(t) && i < SLOTS && CanHold(t.objects[i])
    ensures HandleOf(i, t.objects[i].generation + 1) !in t.issued && HandleOf(i, t.objects[i].generation + 1) !in t.closed
  {
    assert HandleOk(t, i, t.objects[i].generation + 1);
  }

  /** Closing an open handle takes exactly it away; a second close finds nothing. */
  lemma CloseIs(t: Table, h: nat)
    requires Inv(t) && t.active
    ensures var (t', r) := Do(t, Close(h));
      && |t'.objects| == SLOTS && r == Reply(if h in View(t) then Ok else BadHandle, 0)
      && View(t') == View(t) - {h} && t'.leases == t.leases
  {
    ViewHas(t, h);
    CloseKeeps(t, h);
    var t' := Do(t, Close(h)).0;
    if Slot(t, h).Some? {
      SlotFacts(t, h);
      assert ObjectOk(t, Slot(t, h).value);
      hide Inv;
      forall x | x in View(t) && x != h ensures EventOf(t', x) == EventOf(t, x) {
        ResolvesIff(t, x);
        SlotFacts(t, x);
        HandleWhole(x);
        HandleWhole(h);
      }
    }
  }

  /** A lease needs a new name, an open handle with the rights, and a reference to spare; nobody sees a difference. */
  lemma ReferenceIs(t: Table, h: nat, access: set<Right>, lease: nat)
    requires Inv(t) && t.active
    ensures var (t', r) := Do(t, Reference(h, access, lease));
      && |t'.objects| == SLOTS && View(t') == View(t) && r.value == 0
      && r.status == (if lease in t.leases then Invalid
                      else if Refusal(View(t), h, access) != Ok then Refusal(View(t), h, access)
                      else if LeasedTimes(t, h) + 1 == 0xFFFF_FFFF then NoMemory else Ok)
      && (r.status != Ok ==> t' == t)
      && (r.status == Ok ==> t'.leases == t.leases[lease := Lease(h % 0x1_0000 - 1, h / 0x1_0000)])
  {
    ViewHas(t, h);
    if Refusal(View(t), h, access) == Ok {
      SlotFacts(t, h);
      assert ObjectOk(t, Slot(t, h).value);
      ViewPut(t, t, h);
      ViewPut(t, Do(t, Reference(h, access, lease)).0, h);
    }
  }

  /** How many leases the handle's slot has. */
  ghost function LeasedTimes(t: Table, h: nat): nat { if IndexOf(h) == 0 then 0 else |LeasesOf(t, IndexOf(h) - 1)| }

  /** A lease is returned exactly once; nobody sees a difference. */
  lemma DereferenceIs(t: Table, lease: nat)
    requires Inv(t) && t.active
    ensures var (t', r) := Do(t, Dereference(lease));
      && |t'.objects| == SLOTS && View(t') == View(t) && t'.leases == t.leases - {lease}
      && r == Reply(if lease in t.leases then Ok else Invalid, 0)
  {
    DereferenceKeeps(t, lease);
    if lease in t.leases {
      var i := t.leases[lease].index;
      assert LeaseOk(t, lease) && ObjectOk(t, i) && lease in LeasesOf(t, i);
      var t' := Do(t, Dereference(lease)).0;
      hide Inv;
      forall x | x in View(t) ensures EventOf(t', x) == EventOf(t, x) {
        ResolvesIff(t, x);
        ResolvesIff(t', x);
        SlotFacts(t, x);
      }
    }
  }

  /** After a shutdown every call is refused and changes nothing. */
  lemma InactiveRefuses(t: Table, call: Call)
    requires Inv(t) && !t.active
    ensures Do(t, call) == (t, Reply(Invalid, 0))
  {
  }

  /** A shutdown either finds something open or leased, or ends the table's service. */
  lemma ShutdownIs(t: Table)
    requires Inv(t) && t.active
    ensures var (t', r) := Do(t, Shutdown);
      && r == Reply(if View(t) == map[] && t.leases == map[] then Ok else Busy, 0)
      && t' == if r.status == Ok then t.(active := false) else t
  {
    Size(t);
    hide Inv;
    ShutdownIff(t);
    ClosedWereIssued(t);
    forall h | h in t.issued && h !in t.closed ensures View(t) != map[] {
      assert h in View(t);
    }
  }

  lemma ClosedWereIssued(t: Table)
    requires Inv(t)
    ensures t.closed <= t.issued
  {
    forall h | h in t.closed ensures h in t.issued {
      HandleWhole(h);
      assert HandleOk(t, IndexOf(h) - 1, GenerationOf(h));
    }
  }

  /** A new table is active, without handles and leases. */
  lemma StartsEmpty()
    ensures Initial().active && |Initial().objects| == SLOTS && View(Initial()) == map[] && Initial().leases == map[]
    ensures forall i :: 0 <= i < SLOTS ==> CanHold(Initial().objects[i])
  {
  }
}
