/**
 What holds in every run of the bridge: retirement quiescence, delivery and lifetime.
 */
module FlsTheorems {
  import opened Options
  import opened FiniteSets
  import opened FlsState
  import opened FlsSteps
  import opened FlsInvariant
  import opened FlsKeeps
  import opened FlsRuns

  // ---- Counting the caller's own frames ----

  ghost function LocalSet(frames: map<nat, Frame>, list: seq<nat>, index: nat, generation: nat): set<nat>
    requires forall f :: f in list ==> f in frames
  {
    set f | f in list && frames[f].reserved && frames[f].cbIndex == index && frames[f].cbGeneration == generation
  }

  /** The list walk counts each frame once. */
  lemma {:induction false} LocalCount(frames: map<nat, Frame>, list: seq<nat>, index: nat, generation: nat)
    requires NoDup(list) && forall f :: f in list ==> f in frames
    ensures LocalCallbacks(frames, list, index, generation) == |LocalSet(frames, list, index, generation)|
  {
    if list == [] {
      assert LocalSet(frames, list, index, generation) == {};
    } else {
      var f, rest := list[0], list[1..];
      assert NoDup(rest) && f !in rest && list == [f] + rest;
      LocalCount(frames, rest, index, generation);
      var here, below := LocalSet(frames, list, index, generation), LocalSet(frames, rest, index, generation);
      var o := frames[f];
      if o.reserved && o.cbIndex == index && o.cbGeneration == generation {
        assert here == below + {f};
      } else {
        assert here == below;
      }
    }
  }

  /** If the slot's count does not exceed the local count, all reservations are local. */
  lemma OnlyLocal(s: State, f: nat)
    requires Inv(s) && f in s.frames && s.frames[f].kind == Retire
    requires s.frames[f].context in s.contexts && s.frames[f].index < |s.slots|
    requires forall g :: g in s.contexts[s.frames[f].context].cleanup ==> g in s.frames
    requires s.slots[s.frames[f].index].callbacks
             <= LocalCallbacks(s.frames, s.contexts[s.frames[f].context].cleanup, s.frames[f].index, s.frames[f].generation)
    ensures forall g :: g in Reserving(s.frames, s.frames[f].index) ==> s.frames[g].context == s.frames[f].context
  {
    hide EpochsOk, FramesOk, RecordsOk, CellsOk, PlacesOk, DeliveriesOk;
    var o := s.frames[f];
    var list := s.contexts[o.context].cleanup;
    assert ContextOk(s, o.context) && SlotOk(s, o.index);
    LocalCount(s.frames, list, o.index, o.generation);
    var local := LocalSet(s.frames, list, o.index, o.generation);
    assert local <= Reserving(s.frames, o.index);
    SubsetSize(local, Reserving(s.frames, o.index));
  }

  // ---- Retirement ----

  /** The step in which `FlsFree` returns for one epoch of a slot. */
  ghost predicate Returns(s: State, op: Op, key: Key)
    requires Inv(s) && Enabled(s, op)
  {
    key in Do(s, op).history.returned && key !in s.history.returned
  }

  lemma ReturnIsScan(s: State, op: Op, key: Key)
    requires Inv(s) && Enabled(s, op) && Returns(s, op, key)
    ensures op.OpScan? && key.0 == s.frames[op.frame].index
  {
    hide Inv, FirstCandidate, LocalCallbacks;
    match op {
      case OpScan(f) => ReleaseKeeps(s, f);
      case OpRundown(f) => ReleaseKeeps(s, f);
      case _ =>
    }
  }

  /**
   When `FlsFree` returns, no value of the slot is left, and whoever still runs one of its
   callbacks is the returning caller's own thread.
   */
  lemma ReturnIsQuiescent(s: State, op: Op, key: Key)
    requires Inv(s) && Enabled(s, op) && Returns(s, op, key)
    ensures op.OpScan? && op.frame !in Do(s, op).frames
    ensures forall g :: g in Reserving(Do(s, op).frames, key.0) ==>
              Do(s, op).frames[g].context == s.frames[op.frame].context
    ensures forall r: nat :: !HeldAt(Do(s, op), r, key.0)
  {
    hide Inv, FirstCandidate, LocalCallbacks;
    ReturnIsScan(s, op, key);
    var f := op.frame;
    ReleaseKeeps(s, f);
    var s1, s' := ReleaseReservation(s, f), Do(s, op);
    var i := s.frames[f].index;
    ScanFacts(s1, f);
    OnlyLocal(s1, f);
    NoCandidate(s1, f);
    assert s' == FinishRetire(s1, f);
    forall g | g in Reserving(s'.frames, i) ensures s'.frames[g].context == s.frames[f].context {
      FrameRemoved(s1.frames, f, i, 0);
    }
    forall r: nat ensures !HeldAt(s', r, i) {
      assert !HeldAt(s1, r, i);
    }
  }

  ghost predicate SameEpochs(s: State, s': State) {
    |s'.slots| == |s.slots| && forall i :: 0 <= i < |s.slots| ==> s'.slots[i].epoch == s.slots[i].epoch
  }

  lemma ScanEpochs(s: State, f: nat)
    requires Inv(s) && f in s.frames && s.frames[f].kind == Retire
    ensures SameEpochs(s, Scan(s, f))
  {
    hide Inv, FirstCandidate, LocalCallbacks;
    ScanFacts(s, f);
  }

  lemma RundownEpochs(s: State, f: nat)
    requires Inv(s) && f in s.frames && s.frames[f].kind == Rundown
    ensures SameEpochs(s, RundownRound(s, f))
  {
    hide Inv;
    RundownFacts(s, f);
  }

  lemma ConvertEpochs(s: State, op: Op)
    requires Inv(s) && Enabled(s, op) && op.OpConvert?
    ensures SameEpochs(s, Do(s, op))
  {
    hide Inv, Without, Moved;
  }

  lemma SetEpochs(s: State, op: Op)
    requires Inv(s) && Enabled(s, op) && op.OpSet?
    ensures SameEpochs(s, Do(s, op))
  {
    hide Inv;
  }

  lemma OnlyAllocChangesEpochs(s: State, op: Op)
    requires Inv(s) && Enabled(s, op) && !op.OpAlloc?
    ensures SameEpochs(s, Do(s, op))
  {
    hide Inv, Scan, RundownRound, SetValue, Convert, Without, Moved;
    match op {
      case OpScan(f) =>
        ReleaseKeeps(s, f);
        ScanEpochs(ReleaseReservation(s, f), f);
      case OpRundown(f) =>
        ReleaseKeeps(s, f);
        RundownEpochs(ReleaseReservation(s, f), f);
      case OpSet(_, _, _, _, _) => SetEpochs(s, op);
      case OpConvert(_, _, _) => ConvertEpochs(s, op);
      case _ => Parts(s);
    }
  }

  /** A slot changes epoch only from the free state, when nobody holds a reservation on it. */
  lemma ReuseIsQuiet(s: State, op: Op, i: nat)
    requires Inv(s) && Enabled(s, op) && i < LIMIT
    ensures |Do(s, op).slots| == LIMIT == |s.slots|
    ensures Do(s, op).slots[i].epoch != s.slots[i].epoch ==>
      op.OpAlloc? && s.slots[i].state == Free && Reserving(s.frames, i) == {}
  {
    hide EpochsOk, FramesOk, RecordsOk, CellsOk, PlacesOk, DeliveriesOk, ContextsOk, Reserving, Scan, RundownRound;
    if !op.OpAlloc? {
      OnlyAllocChangesEpochs(s, op);
    } else if s.slots[i].state == Free {
      assert SlotOk(s, i);
      EmptySet(Reserving(s.frames, i));
    }
  }

  // ---- Deliveries ----

  /** At most one delivery is added, of a life that has not returned; what has returned or been freed stays so. */
  ghost predicate HistoryStep(h: History, h': History) {
    && (h'.delivered == h.delivered
        || (|h'.delivered| == |h.delivered| + 1 && h'.delivered == h.delivered + [h'.delivered[|h.delivered|]]
            && (h'.delivered[|h.delivered|].index, h'.delivered[|h.delivered|].epoch) !in h.returned))
    && h.returned <= h'.returned && h.freed <= h'.freed
  }

  lemma ScanDelivers(s: State, f: nat)
    requires Inv(s) && f in s.frames && s.frames[f].kind == Retire
    ensures HistoryStep(s.history, Scan(s, f).history)
  {
    hide Inv, FirstCandidate, LocalCallbacks;
    ScanFacts(s, f);
    if FirstCandidate(s, f, s.records).Some? {
      HeldEpoch(s, FirstCandidate(s, f, s.records).value, s.frames[f].index);
    }
  }

  lemma RundownDelivers(s: State, f: nat)
    requires Inv(s) && f in s.frames && s.frames[f].kind == Rundown
    ensures HistoryStep(s.history, RundownRound(s, f).history)
  {
    hide Inv;
    RundownFacts(s, f);
    if s.frames[f].index < LIMIT && HeldAt(s, s.frames[f].record.value, s.frames[f].index) {
      HeldEpoch(s, s.frames[f].record.value, s.frames[f].index);
    }
  }

  /** A step delivers at most one value, and never to an epoch whose `FlsFree` has returned. */
  lemma DeliversOnlyUnreturned(s: State, op: Op)
    requires Inv(s) && Enabled(s, op)
    ensures HistoryStep(s.history, Do(s, op).history)
  {
    hide Inv, Scan, RundownRound;
    match op {
      case OpScan(f) =>
        ReleaseKeeps(s, f);
        ScanDelivers(ReleaseReservation(s, f), f);
      case OpRundown(f) =>
        ReleaseKeeps(s, f);
        RundownDelivers(ReleaseReservation(s, f), f);
      case _ =>
    }
  }

  lemma HeldEpoch(s: State, r: nat, i: nat)
    requires Inv(s) && HeldAt(s, r, i)
    ensures (i, s.slots[i].epoch) !in s.history.returned
  {
    hide Inv;
    HeldFacts(s, r, i);
  }

  // ---- Whole runs ----

  /** From a state that satisfies the invariant the step is the locked section's effect. */
  ghost predicate Next(s: State, op: Op, s': State) {
    Enabled(s, op) && (Inv(s) ==> s' == Do(s, op))
  }

  ghost predicate Run(ss: seq<State>, ops: seq<Op>) {
    && |ss| == |ops| + 1 && ss[0] == Initial()
    && forall i :: 0 <= i < |ops| ==> Next(ss[i], ops[i], ss[i + 1])
  }

  lemma {:induction false} RunKeeps(ss: seq<State>, ops: seq<Op>, n: nat)
    requires Run(ss, ops) && n <= |ops|
    ensures Inv(ss[n])
  {
    hide Inv, Enabled, Initial;
    if n == 0 {
      InitialInv();
    } else {
      RunKeeps(ss, ops, n - 1);
      assert Next(ss[n - 1], ops[n - 1], ss[n]);
      StepKeeps(ss[n - 1], ops[n - 1]);
    }
  }

  /** What history keeps: returned epochs, freed records and the deliveries so far. */
  lemma {:induction false} HistoryGrows(ss: seq<State>, ops: seq<Op>, m: nat, n: nat)
    requires Run(ss, ops) && m <= n <= |ops|
    ensures ss[m].history.returned <= ss[n].history.returned
    ensures ss[m].history.freed <= ss[n].history.freed
    ensures ss[m].history.delivered <= ss[n].history.delivered
    decreases n - m
  {
    hide Inv, Enabled, Initial, Do;
    if m < n {
      HistoryGrows(ss, ops, m, n - 1);
      RunKeeps(ss, ops, n - 1);
      assert Next(ss[n - 1], ops[n - 1], ss[n]);
      DeliversOnlyUnreturned(ss[n - 1], ops[n - 1]);
    }
  }

  /** Once `FlsFree` has returned, no callback of that epoch ever starts again. */
  lemma {:induction false} QuiescentForever(ss: seq<State>, ops: seq<Op>, m: nat, n: nat, key: Key)
    requires Run(ss, ops) && m <= n <= |ops| && key in ss[m].history.returned
    ensures ss[m].history.delivered <= ss[n].history.delivered
    ensures forall k :: |ss[m].history.delivered| <= k < |ss[n].history.delivered| ==>
              (ss[n].history.delivered[k].index, ss[n].history.delivered[k].epoch) != key
    decreases n - m
  {
    hide Inv, Enabled, Initial, Do;
    HistoryGrows(ss, ops, m, n);
    if m < n {
      QuiescentForever(ss, ops, m, n - 1, key);
      HistoryGrows(ss, ops, m, n - 1);
      RunKeeps(ss, ops, n - 1);
      assert Next(ss[n - 1], ops[n - 1], ss[n]);
      DeliversOnlyUnreturned(ss[n - 1], ops[n - 1]);
    }
  }

  /** A freed record is never seen again: not on the heap, not on the list, not in any frame. */
  lemma FreedForever(ss: seq<State>, ops: seq<Op>, m: nat, n: nat, r: nat)
    requires Run(ss, ops) && m <= n <= |ops| && r in ss[m].history.freed
    ensures r !in ss[n].heap && r !in ss[n].records
    ensures forall f :: f in ss[n].frames ==> ss[n].frames[f].record != Some(r)
    ensures forall t :: t in ss[n].contexts ==> ss[n].contexts[t].record != Some(r)
  {
    hide Next, Initial, SlotsOk, EpochsOk, CellsOk, PlacesOk, DeliveriesOk;
    HistoryGrows(ss, ops, m, n);
    RunKeeps(ss, ops, n);
    var s := ss[n];
    assert r in s.heap ==> RecordOk(s, r);
    forall f | f in s.frames ensures s.frames[f].record != Some(r) {
      assert FrameOk(s, f);
    }
    forall t | t in s.contexts ensures s.contexts[t].record != Some(r) {
      assert ContextOk(s, t);
    }
  }

  ghost predicate DeliveredAs(h: History, n: nat, k: nat)
    requires n < |h.stored|
  {
    && k < |h.delivered| && h.delivered[k].stamp == n
    && h.delivered[k].index == h.stored[n].index && h.delivered[k].epoch == h.stored[n].epoch
    && h.delivered[k].value == h.stored[n].value
    && (h.stored[n].index, h.stored[n].epoch) in h.registered
    && h.delivered[k].callback == h.registered[(h.stored[n].index, h.stored[n].epoch)]
  }

  /**
   The fate of one stored value in any run: still held in one cell and not delivered, or
   overwritten and not delivered, or delivered exactly once, to its own epoch's callback;
   it is dropped only if it was null or its epoch has no callback.
   */
  lemma StoredValueFate(ss: seq<State>, ops: seq<Op>, n: nat)
    requires Run(ss, ops) && n < |ss[|ops|].history.stored|
    ensures var s := ss[|ops|];
      && n < |s.history.place|
      && (s.history.place[n].At? ==> HeldAt(s, s.history.place[n].record, s.history.place[n].index))
      && (s.history.place[n] == Delivered <==> exists k :: DeliveredAs(s.history, n, k))
      && (s.history.place[n] == Discarded ==> Ownerless(s.history, n))
    ensures var d := ss[|ops|].history.delivered;
      forall j, k :: 0 <= j < |d| && 0 <= k < |d| && d[j].stamp == n && d[k].stamp == n ==> j == k
  {
    hide Next, Initial, SlotsOk, EpochsOk, FramesOk, RecordsOk, ContextsOk, CellsOk;
    RunKeeps(ss, ops, |ops|);
    var s := ss[|ops|];
    assert PlaceOk(s, n);
    assert forall k: nat :: DeliveredAs(s.history, n, k) ==> DeliveryOk(s, k);
    if s.history.place[n] == Delivered {
      var k :| 0 <= k < |s.history.delivered| && s.history.delivered[k].stamp == n;
      assert DeliveryOk(s, k);
      assert DeliveredAs(s.history, n, k);
    }
    if s.history.place[n].At? {
      HeldIndex(s, s.history.place[n].record, s.history.place[n].index);
    }
  }

  lemma HeldIndex(s: State, r: nat, i: nat)
    requires Inv(s) && r in s.heap && i < |s.heap[r].cells| && s.heap[r].cells[i].value != 0
    ensures HeldAt(s, r, i)
  {
    assert RecordOk(s, r);
  }

  /** In every run the counters say exactly what the frames and lists say. */
  lemma CountersAreExact(ss: seq<State>, ops: seq<Op>, n: nat)
    requires Run(ss, ops) && n <= |ops|
    ensures var s := ss[n];
      && |s.slots| == LIMIT
      && (forall i: nat :: i < LIMIT ==> s.slots[i].callbacks == |Reserving(s.frames, i)|)
      && (forall f :: f in s.frames && s.frames[f].reserved ==>
            && s.frames[f].cbIndex < LIMIT
            && s.frames[f].cbGeneration == s.slots[s.frames[f].cbIndex].generation)
      && (forall r :: r in s.heap ==> s.heap[r].references == Listed(s.records, r) + |Pinning(s.frames, r)|)
  {
    hide Next, Initial, EpochsOk, CellsOk, PlacesOk, DeliveriesOk, ContextsOk;
    RunKeeps(ss, ops, n);
    var s := ss[n];
    forall i: nat | i < LIMIT ensures s.slots[i].callbacks == |Reserving(s.frames, i)| {
      assert SlotOk(s, i);
    }
    forall f | f in s.frames && s.frames[f].reserved
      ensures s.frames[f].cbIndex < LIMIT && s.frames[f].cbGeneration == s.slots[s.frames[f].cbIndex].generation
    {
      assert FrameOk(s, f);
    }
    forall r | r in s.heap ensures s.heap[r].references == Listed(s.records, r) + |Pinning(s.frames, r)| {
      assert RecordOk(s, r);
    }
  }
}
