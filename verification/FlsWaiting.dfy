/**
 What a retirement waits for, and runs in which retirements wait for each other for ever.
 */
module FlsWaiting {
  import opened Options
  import opened FiniteSets
  import opened FlsState
  import opened FlsSteps
  import opened FlsInvariant
  import opened FlsKeeps
  import opened FlsRuns
  import opened FlsTheorems

  // ---- One retirement ----

  /** `g` runs a callback of the slot that `f` retires, on another thread. */
  ghost predicate Blocks(s: State, f: nat, g: nat)
    requires f in s.frames
  {
    g in Reserving(s.frames, s.frames[f].index) && s.frames[g].context != s.frames[f].context
  }

  /** The count exceeds the local count exactly if another thread runs a callback of the slot. */
  lemma WaitsIff(s: State, f: nat)
    requires Inv(s) && f in s.frames && s.frames[f].kind == Retire
    ensures s.frames[f].context in s.contexts && s.frames[f].index < |s.slots|
    ensures forall g :: g in s.contexts[s.frames[f].context].cleanup ==> g in s.frames
    ensures var o := s.frames[f];
      s.slots[o.index].callbacks > LocalCallbacks(s.frames, s.contexts[o.context].cleanup, o.index, o.generation)
      <==> exists g :: Blocks(s, f, g)
  {
    hide EpochsOk, RecordsOk, CellsOk, PlacesOk, DeliveriesOk, LocalCallbacks, Shape;
    ScanFacts(s, f);
    var o := s.frames[f];
    var list := s.contexts[o.context].cleanup;
    var local, all := LocalSet(s.frames, list, o.index, o.generation), Reserving(s.frames, o.index);
    assert SlotOk(s, o.index) && ContextOk(s, o.context);
    LocalCount(s.frames, list, o.index, o.generation);
    SubsetSize(local, all);
    if g :| Blocks(s, f, g) {
      assert g in all && g !in local;
    } else {
      forall g | g in all ensures g in local {
        assert !Blocks(s, f, g) && FrameOk(s, g) && FrameOk(s, f);
      }
      assert local == all;
    }
  }

  /** With its own reservation given back, the retirement finds no value left but another thread in a callback. */
  ghost predicate MustWait(s: State, f: nat)
    requires Inv(s) && f in s.frames && s.frames[f].kind == Retire
  {
    ReleaseKeeps(s, f);
    var s1 := ReleaseReservation(s, f);
    FirstCandidate(s1, f, s1.records).None? && exists g :: Blocks(s1, f, g)
  }

  // ---- Retirements that wait for each other ----

  ghost predicate Before(list: seq<nat>, h: nat, g: nat) {
    exists i, j :: 0 <= i < j < |list| && list[i] == h && list[j] == g
  }

  /** `g` belongs to a call that has not returned because `h` was begun inside it. */
  ghost predicate Under(s: State, g: nat, h: nat) {
    && g in s.frames && h in s.frames && s.frames[g].context == s.frames[h].context && s.frames[g].fiber == s.frames[h].fiber
    && s.frames[g].context in s.contexts && Before(s.contexts[s.frames[g].context].cleanup, h, g)
  }

  /** Calls nest: only the innermost frame of a thread's or fiber's stack goes on. */
  ghost predicate Nested(s: State, op: Op) {
    match op
    case OpDropRecord(f) => forall h :: !Under(s, f, h)
    case OpScan(f) => forall h :: !Under(s, f, h)
    case OpRundown(f) => forall h :: !Under(s, f, h)
    case _ => true
  }

  ghost predicate Stuck(s: State, d: set<nat>, f: nat, g: nat, h: nat) {
    f in s.frames && s.frames[f].kind == Retire && Blocks(s, f, g) && h in d && Under(s, g, h)
  }

  /** Each of these retirements is blocked by a callback inside which another of them was begun. */
  ghost predicate Knot(s: State, d: set<nat>) {
    d != {} && forall f :: f in d ==> exists g, h :: Stuck(s, d, f, g, h)
  }

  /** A step on frame `x`, or on none, leaves the other frames and the nesting among them alone. */
  ghost predicate Spares(s: State, s': State, x: Option<nat>) {
    && (forall g :: g in s.frames && Some(g) != x ==> g in s'.frames && s'.frames[g] == s.frames[g])
    && (forall t, h: nat, g: nat :: t in s.contexts && Some(h) != x && Some(g) != x && Before(s.contexts[t].cleanup, h, g) ==>
          t in s'.contexts && Before(s'.contexts[t].cleanup, h, g))
  }

  lemma BeforeLinked(list: seq<nat>, x: nat, h: nat, g: nat)
    requires Before(list, h, g)
    ensures Before([x] + list, h, g)
  {
    var i, j :| 0 <= i < j < |list| && list[i] == h && list[j] == g;
    assert ([x] + list)[i + 1] == h && ([x] + list)[j + 1] == g;
  }

  lemma {:induction false} WithoutKeeps(list: seq<nat>, x: nat, j: nat) returns (k: nat)
    requires j < |list| && list[j] != x
    ensures k < |Without(list, x)| && Without(list, x)[k] == list[j] && k <= j
    ensures forall i: nat :: i < j && list[i] != x ==> exists l: nat :: l < k && Without(list, x)[l] == list[i]
  {
    if list[0] == x {
      k := j - 1;
      forall i: nat | i < j && list[i] != x ensures exists l: nat :: l < k && Without(list, x)[l] == list[i] {
        assert Without(list, x)[i - 1] == list[i];
      }
    } else if j == 0 {
      k := 0;
    } else {
      var k' := WithoutKeeps(list[1..], x, j - 1);
      k := k' + 1;
      forall i: nat | i < j && list[i] != x ensures exists l: nat :: l < k && Without(list, x)[l] == list[i] {
        if i == 0 {
          assert Without(list, x)[0] == list[0];
        } else {
          assert list[1..][i - 1] == list[i];
          var l: nat :| l < k' && Without(list[1..], x)[l] == list[i];
          assert Without(list, x)[l + 1] == list[i];
        }
      }
    }
  }

  lemma BeforeWithout(list: seq<nat>, x: nat, h: nat, g: nat)
    requires Before(list, h, g) && h != x && g != x
    ensures Before(Without(list, x), h, g)
  {
    var i: nat, j: nat :| i < j < |list| && list[i] == h && list[j] == g;
    var k := WithoutKeeps(list, x, j);
    var l: nat :| l < k && Without(list, x)[l] == list[i];
  }

  /** A new frame on top of thread `t`. */
  lemma LinkSpares(s: State, s': State, t: nat, x: nat)
    requires t in s.contexts && s'.contexts.Keys == s.contexts.Keys
    requires forall g :: g in s.frames ==> g in s'.frames && s'.frames[g] == s.frames[g]
    requires s'.contexts[t].cleanup == [x] + s.contexts[t].cleanup
    requires forall u :: u in s.contexts && u != t ==> s'.contexts[u].cleanup == s.contexts[u].cleanup
    ensures Spares(s, s', None)
  {
    hide Before;
    forall u, h: nat, g: nat | u in s.contexts && Before(s.contexts[u].cleanup, h, g) ensures Before(s'.contexts[u].cleanup, h, g) {
      if u == t {
        BeforeLinked(s.contexts[t].cleanup, x, h, g);
      }
    }
  }

  /** Frame `x` of thread `t` is gone. */
  lemma UnlinkSpares(s: State, s': State, t: nat, x: nat)
    requires t in s.contexts && s'.contexts.Keys == s.contexts.Keys
    requires forall g :: g in s.frames && g != x ==> g in s'.frames && s'.frames[g] == s.frames[g]
    requires s'.contexts[t].cleanup == Without(s.contexts[t].cleanup, x)
    requires forall u :: u in s.contexts && u != t ==> s'.contexts[u].cleanup == s.contexts[u].cleanup
    ensures Spares(s, s', Some(x))
  {
    hide Before, Without;
    forall u, h: nat, g: nat | u in s.contexts && h != x && g != x && Before(s.contexts[u].cleanup, h, g)
      ensures Before(s'.contexts[u].cleanup, h, g)
    {
      if u == t {
        BeforeWithout(s.contexts[t].cleanup, x, h, g);
      }
    }
  }

  /** All threads keep their lists. */
  lemma SameListsSpare(s: State, s': State, x: Option<nat>)
    requires forall g :: g in s.frames && Some(g) != x ==> g in s'.frames && s'.frames[g] == s.frames[g]
    requires forall t :: t in s.contexts && s.contexts[t].cleanup != [] ==> t in s'.contexts && s'.contexts[t].cleanup == s.contexts[t].cleanup
    ensures Spares(s, s', x)
  {
  }

  lemma ScanSpares(s: State, f: nat)
    requires Inv(s) && f in s.frames && s.frames[f].kind == Retire
    ensures Spares(s, Scan(s, f), Some(f))
    ensures (exists g :: Blocks(s, f, g)) ==> Waiting(s, Scan(s, f), f)
  {
    hide Inv, FirstCandidate, LocalCallbacks, Spares, Blocks;
    ScanFacts(s, f);
    WaitsIff(s, f);
    var s' := Scan(s, f);
    if FirstCandidate(s, f, s.records).Some? || exists g :: Blocks(s, f, g) {
      SameListsSpare(s, s', Some(f));
    } else {
      UnlinkSpares(s, s', s.frames[f].context, f);
    }
  }

  /** The retirement goes on: it has at most taken another value. */
  ghost predicate Waiting(s: State, s': State, f: nat) {
    && f in s.frames && f in s'.frames && s'.contexts == s.contexts
    && var a, b := s.frames[f], s'.frames[f];
    && b.kind == a.kind && b.index == a.index && b.context == a.context && b.fiber == a.fiber
  }

  lemma RundownSpares(s: State, f: nat)
    requires Inv(s) && f in s.frames && s.frames[f].kind == Rundown
    ensures Spares(s, RundownRound(s, f), Some(f))
  {
    hide Inv, Spares;
    RundownFacts(s, f);
    var s' := RundownRound(s, f);
    if s'.contexts == s.contexts {
      SameListsSpare(s, s', Some(f));
    } else {
      UnlinkSpares(s, s', s.frames[f].context, f);
    }
  }

  lemma SparesTransitive(s: State, s1: State, s': State, x: nat)
    requires Spares(s, s1, Some(x)) && Spares(s1, s', Some(x))
    ensures Spares(s, s', Some(x))
  {
    hide Before;
  }

  /** The frame that a step is about, if it is about one that exists. */
  function Actor(op: Op): Option<nat> {
    match op
    case OpDropRecord(f) => Some(f)
    case OpScan(f) => Some(f)
    case OpRundown(f) => Some(f)
    case _ => None
  }

  lemma ReleaseSpares(s: State, f: nat)
    requires Releasable(s, f)
    ensures Spares(s, ReleaseReservation(s, f), Some(f)) && Waiting(s, ReleaseReservation(s, f), f)
  {
    hide Spares;
    SameListsSpare(s, ReleaseReservation(s, f), Some(f));
  }

  lemma FreeSpares(s: State, op: Op)
    requires Inv(s) && Enabled(s, op) && op.OpFree?
    ensures Spares(s, Do(s, op), None)
  {
    hide Inv, Spares;
    Parts(s);
    var s' := Do(s, op);
    if s' == s {
      SameListsSpare(s, s', None);
    } else {
      LinkSpares(s, s', op.t, op.frame);
    }
  }

  lemma KillSpares(s: State, op: Op)
    requires Inv(s) && Enabled(s, op) && op.OpKill?
    ensures Spares(s, Do(s, op), None)
  {
    hide Inv, Spares;
    var s' := Do(s, op);
    if s' == s {
      SameListsSpare(s, s', None);
    } else {
      LinkSpares(s, s', op.t, op.frame);
    }
  }

  lemma SetSpares(s: State, op: Op)
    requires Inv(s) && Enabled(s, op) && op.OpSet?
    ensures Spares(s, Do(s, op), None)
  {
    hide Inv, Spares, FindFiber;
    SameListsSpare(s, Do(s, op), None);
  }

  lemma ConvertSpares(s: State, op: Op)
    requires Inv(s) && Enabled(s, op) && op.OpConvert?
    ensures Spares(s, Do(s, op), None)
  {
    hide Inv, Spares, Without, Moved;
    SameListsSpare(s, Do(s, op), None);
  }

  lemma OtherSpares(s: State, op: Op)
    requires Inv(s) && Enabled(s, op)
    requires op.OpAlloc? || op.OpCreateFiber? || op.OpEnter? || op.OpExit? || op.OpLeave?
    ensures Spares(s, Do(s, op), None)
  {
    hide Inv, Spares;
    SameListsSpare(s, Do(s, op), None);
  }

  lemma StepSpares(s: State, op: Op)
    requires Inv(s) && Enabled(s, op)
    ensures Spares(s, Do(s, op), Actor(op))
  {
    hide Inv, Spares, Scan, RundownRound, SetValue, Convert;
    match op {
      case OpDropRecord(f) =>
        DropRecordKeeps(s, f);
        SameListsSpare(s, DropRecord(s, f), Some(f));
      case OpScan(f) =>
        ReleaseKeeps(s, f);
        ReleaseSpares(s, f);
        ScanSpares(ReleaseReservation(s, f), f);
        SparesTransitive(s, ReleaseReservation(s, f), Do(s, op), f);
      case OpRundown(f) =>
        ReleaseKeeps(s, f);
        ReleaseSpares(s, f);
        RundownSpares(ReleaseReservation(s, f), f);
        SparesTransitive(s, ReleaseReservation(s, f), Do(s, op), f);
      case OpFree(_, _, _, _) => FreeSpares(s, op);
      case OpKill(_, _, _, _, _, _) => KillSpares(s, op);
      case OpSet(_, _, _, _, _) => SetSpares(s, op);
      case OpConvert(_, _, _) => ConvertSpares(s, op);
      case _ => OtherSpares(s, op);
    }
  }

  /** A blocked retirement goes round without returning. */
  lemma BlockedWaits(s: State, op: Op, f: nat, g: nat)
    requires Inv(s) && Enabled(s, op) && Actor(op) == Some(f) && f in s.frames && s.frames[f].kind == Retire
    requires Blocks(s, f, g)
    ensures Waiting(s, Do(s, op), f)
  {
    hide Inv, Scan;
    if op.OpScan? {
      ReleaseKeeps(s, f);
      ReleaseSpares(s, f);
      var s1 := ReleaseReservation(s, f);
      assert Blocks(s1, f, g);
      ScanSpares(s1, f);
    } else {
      DropRecordKeeps(s, f);
    }
  }

  lemma StuckStays(s: State, s': State, d: set<nat>, x: Option<nat>, f: nat, g: nat, h: nat)
    requires Spares(s, s', x) && Stuck(s, d, f, g, h) && Some(g) != x
    requires Some(f) == x ==> Waiting(s, s', f)
    requires Some(h) == x ==> Waiting(s, s', h)
    ensures Stuck(s', d, f, g, h)
  {
    hide Before;
  }

  /** As long as calls nest, a knot is never undone. */
  lemma KnotStays(s: State, op: Op, d: set<nat>)
    requires Inv(s) && Enabled(s, op) && Nested(s, op) && Knot(s, d)
    ensures Knot(Do(s, op), d)
  {
    hide Inv, Enabled, Do, Spares, Under, Blocks, Waiting;
    StepSpares(s, op);
    var x := Actor(op);
    if x.Some? && x.value in d {
      var g, h :| Stuck(s, d, x.value, g, h);
      ActorIsFrame(s, op);
      BlockedWaits(s, op, x.value, g);
    }
    forall f | f in d ensures exists g, h :: Stuck(Do(s, op), d, f, g, h) {
      var g, h :| Stuck(s, d, f, g, h);
      StuckStays(s, Do(s, op), d, x, f, g, h);
    }
  }

  lemma ActorIsFrame(s: State, op: Op)
    requires Enabled(s, op) && Actor(op).Some?
    ensures Actor(op).value in s.frames
  {
  }

  lemma KnotFrames(s: State, d: set<nat>)
    requires Knot(s, d)
    ensures d <= s.frames.Keys
  {
    hide Under, Blocks;
    forall f | f in d ensures f in s.frames {
      var g, h :| Stuck(s, d, f, g, h);
    }
  }

  ghost predicate NestedFrom(ss: seq<State>, ops: seq<Op>, m: nat)
    requires |ss| == |ops| + 1
  {
    forall i :: m <= i < |ops| ==> Nested(ss[i], ops[i])
  }

  /** None of the retirements in a knot ever returns. */
  lemma {:induction false} KnotForever(ss: seq<State>, ops: seq<Op>, m: nat, n: nat, d: set<nat>)
    requires Run(ss, ops) && m <= n <= |ops| && NestedFrom(ss, ops, m) && Knot(ss[m], d)
    ensures Knot(ss[n], d) && d <= ss[n].frames.Keys
    decreases n - m
  {
    hide Inv, Enabled, Initial, Do, Nested, Knot;
    KnotFrames(ss[m], d);
    if m < n {
      KnotForever(ss, ops, m, n - 1, d);
      RunKeeps(ss, ops, n - 1);
      assert Next(ss[n - 1], ops[n - 1], ss[n]);
      KnotStays(ss[n - 1], ops[n - 1], d);
      KnotFrames(ss[n], d);
    }
  }
}
