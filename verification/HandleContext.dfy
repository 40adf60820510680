/**
 The handle table as the program keeps it: an object array and the callers' leases, changed
 by one method per call.
 */
module HandleContext {
  import opened Options
  import opened HandleTable

  class Context {
    const objects: array<Object>
    var active: bool
    var leases: map<nat, Lease>
    // History variables only.
    ghost var issued: set<nat>
    ghost var closed: set<nat>
    ghost var autos: set<nat>
    ghost var signals: map<nat, nat>
    ghost var grants: map<nat, nat>

    ghost function Value(): Table
      reads this, objects
    {
      Table(active, objects[..], leases, issued, closed, autos, signals, grants)
    }

    ghost predicate Valid()
      reads this, objects
    {
      objects.Length == SLOTS && Inv(Value())
    }

    constructor ()
      ensures Valid() && fresh(objects) && Value() == Initial()
    {
      var table := new Object[SLOTS](_ => UNUSED);
      objects, active, leases := table, true, map[];
      issued, closed, autos, signals, grants := {}, {}, {}, map[], map[];
      new;
      assert objects[..] == Initial().objects;
      InitialInv();
    }

    /** The slot behind a handle that grants the access asked for. */
    method Find(h: nat, access: set<Right>) returns (status: Status, i: nat)
      requires objects.Length == SLOTS
      ensures status == Lookup(Value(), h, access)
      ensures status == Ok ==> Slot(Value(), h) == Some(i) && i < SLOTS
    {
      var index, generation := h % GENERATIONS, h / GENERATIONS;
      if index == 0 || index > SLOTS || generation == 0 {
        return BadHandle, 0;
      }
      i := index - 1;
      var o := objects[i];
      if !o.occupied || !o.open || o.generation != generation {
        return BadHandle, i;
      }
      if !(access <= o.access) {
        return AccessDenied, i;
      }
      return Ok, i;
    }

    method CreateEvent(manual: bool, signaled: bool, access: set<Right>) returns (status: Status, h: nat)
      requires Valid()
      modifies this, objects
      ensures Valid() && (Value(), Reply(status, h)) == Do(old(Value()), Create(manual, signaled, access))
    {
      hide Inv;
      StepKeeps(Value(), Create(manual, signaled, access));
      if !active {
        return Invalid, 0;
      }
      for i := 0 to SLOTS
        invariant objects[..] == old(objects[..]) && Value() == old(Value())
        invariant FreeSlot(objects[..], 0) == FreeSlot(objects[..], i)
      {
        var o := objects[i];
        if !o.occupied && o.generation != GENERATIONS - 1 {
          h := HandleOf(i, o.generation + 1);
          objects[i] := Object(o.generation + 1, 1, access, true, true, manual, signaled);
          issued := issued + {h};
          autos := if manual then autos else autos + {h};
          signals, grants := signals[h := if signaled then 1 else 0], grants[h := 0];
          return Ok, h;
        }
      }
      return NoMemory, 0;
    }

    method AddReference(h: nat, access: set<Right>, lease: nat) returns (status: Status)
      requires Valid()
      modifies this`leases, objects
      ensures Valid() && (Value(), Reply(status, 0)) == Do(old(Value()), Reference(h, access, lease))
    {
      hide Inv;
      StepKeeps(Value(), Reference(h, access, lease));
      if !active || lease in leases {
        return Invalid;
      }
      var i;
      status, i := Find(h, access);
      if status != Ok {
        return;
      }
      if objects[i].references == MAX_REFERENCES {
        return NoMemory;
      }
      objects[i] := objects[i].(references := objects[i].references + 1);
      leases := leases[lease := Lease(i, h / GENERATIONS)];
    }

    method DropReference(lease: nat) returns (status: Status)
      requires Valid()
      modifies this`leases, objects
      ensures Valid() && (Value(), Reply(status, 0)) == Do(old(Value()), Dereference(lease))
    {
      hide Inv;
      StepKeeps(Value(), Dereference(lease));
      if !active || lease !in leases || leases[lease].index >= SLOTS {
        return Invalid;
      }
      var l := leases[lease];
      var o := objects[l.index];
      if !o.occupied || o.generation != l.generation || o.references <= (if o.open then 1 else 0) {
        return BadHandle;
      }
      objects[l.index] := o.(references := o.references - 1, occupied := o.references != 1);
      leases := leases - {lease};
      return Ok;
    }

    method CloseHandle(h: nat) returns (status: Status)
      requires Valid()
      modifies this`closed, objects
      ensures Valid() && (Value(), Reply(status, 0)) == Do(old(Value()), Close(h))
    {
      StepKeeps(Value(), Close(h));
      if !active {
        return Invalid;
      }
      var i;
      status, i := Find(h, {});
      if status == Ok {
        var o := objects[i];
        assert ObjectOk(Value(), i);
        objects[i] := o.(open := false, references := o.references - 1, occupied := o.references != 1);
        closed := closed + {h};
      }
    }

    method EventOperation(call: Call) returns (status: Status, value: nat)
      requires Valid() && (call.SetEvent? || call.ResetEvent? || call.QueryEvent? || call.TryWait?)
      modifies this`signals, this`grants, objects
      ensures Valid() && (Value(), Reply(status, value)) == Do(old(Value()), call)
    {
      hide Inv;
      StepKeeps(Value(), call);
      if !active {
        return Invalid, 0;
      }
      var access := if call.QueryEvent? then {Query} else if call.TryWait? then {Wait} else {Modify};
      var i;
      value := 0;
      status, i := Find(call.h, access);
      if status != Ok {
        return;
      }
      var o := objects[i];
      value := if o.signaled then 1 else 0;
      if call.SetEvent? || call.ResetEvent? {
        objects[i] := o.(signaled := call.SetEvent?);
        if call.SetEvent? {
          signals := signals[call.h := Counted(signals, call.h) + 1];
        }
      } else if call.TryWait? {
        if !o.signaled {
          status := Pending;
        } else {
          objects[i] := o.(signaled := o.manual);
          grants := grants[call.h := Counted(grants, call.h) + 1];
        }
      }
    }

    method ShutDown() returns (status: Status)
      requires Valid()
      modifies this`active
      ensures Valid() && (Value(), Reply(status, 0)) == Do(old(Value()), Shutdown)
    {
      hide Inv;
      StepKeeps(Value(), Shutdown);
      if !active {
        return Invalid;
      }
      for i := 0 to SLOTS
        invariant Value() == old(Value()) && forall j :: 0 <= j < i ==> !objects[j].occupied
      {
        if objects[i].occupied {
          return Busy;
        }
      }
      active := false;
      return Ok;
    }
  }
}
