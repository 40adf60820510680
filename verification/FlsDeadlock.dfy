/**
 A run into a knot: two threads end, and inside the callbacks that their ending starts each
 retires the slot whose callback the other is running.
 */
module FlsDeadlock {
  import opened Options
  import opened FlsState
  import opened FlsRuns
  import opened FlsTheorems
  import opened FlsWaiting

  ghost predicate RunTo(ss: seq<State>, ops: seq<Op>, s: State) {
    Run(ss, ops) && NestedFrom(ss, ops, 0) && ss[|ops|] == s
  }

  /** Some run with nested calls ends here. */
  ghost predicate Reached(s: State) { exists ss, ops :: RunTo(ss, ops, s) }

  lemma ReachedInv(s: State)
    requires Reached(s)
    ensures Inv(s)
  {
    hide Inv, Next, Initial, NestedFrom;
    var ss, ops :| RunTo(ss, ops, s);
    RunKeeps(ss, ops, |ops|);
  }

  lemma ReachedStep(s: State, op: Op)
    requires Reached(s) && Enabled(s, op) && Nested(s, op)
    ensures Inv(s) && Reached(Do(s, op)) && Inv(Do(s, op))
  {
    hide Inv, Enabled, Do, Nested, Initial;
    ReachedInv(s);
    var ss, ops :| RunTo(ss, ops, s);
    StepKeeps(s, op);
    var ss', ops' := ss + [Do(s, op)], ops + [op];
    forall i | 0 <= i < |ops'| ensures Next(ss'[i], ops'[i], ss'[i + 1]) && Nested(ss'[i], ops'[i]) {
      if i < |ops| {
        assert Next(ss[i], ops[i], ss[i + 1]) && Nested(ss[i], ops[i]);
      }
    }
    assert RunTo(ss', ops', Do(s, op));
  }

  // ---- Stations of the run ----

  ghost predicate Serving(s: State, i: nat) { i < |s.slots| && s.slots[i].state == Active && s.slots[i].callback != 0 }

  /** A thread that has done nothing yet. */
  ghost predicate Idle(s: State, t: nat) {
    t in s.contexts && s.contexts[t] == Context(None, false, []) && t !in s.heap && t !in s.frames
  }

  /** The thread ends, and runs the callback of slot `i`. */
  ghost predicate Inside(s: State, t: nat, i: nat) {
    && t in s.contexts && s.contexts[t].cleanup == [t] && t in s.frames
    && var o := s.frames[t];
    && o.context == t && o.fiber == 0 && o.reserved && o.cbIndex == i
  }

  ghost predicate Small(s: State) {
    && |s.slots| == LIMIT && Serving(s, 1) && Serving(s, 2)
    && s.history.freed == {} && forall f :: f in s.frames ==> f == 1 || f == 2
  }

  /** Nothing but thread `t`'s own things has changed. */
  ghost predicate Alone(s: State, s': State, t: nat) {
    && Small(s') && s'.contexts.Keys == s.contexts.Keys
    && (forall u :: u in s.contexts && u != t ==> s'.contexts[u] == s.contexts[u])
    && (forall f :: f != t ==> (f in s'.frames <==> f in s.frames) && (f in s.frames ==> s'.frames[f] == s.frames[f]))
    && (forall r :: r != t ==> (r in s'.heap <==> r in s.heap))
  }

  lemma Starts() returns (s: State)
    ensures Reached(s) && Small(s) && Idle(s, 1) && Idle(s, 2)
  {
    hide Inv, Run;
    var s0 := Initial();
    assert Reached(s0) by {
      assert Run([s0], []) by { StartRuns(); }
      assert RunTo([s0], [], s0);
    }
    ReachedStep(s0, OpAlloc(7));
    var s1 := Do(s0, OpAlloc(7));
    ReachedStep(s1, OpAlloc(7));
    var s2 := Do(s1, OpAlloc(7));
    ReachedStep(s2, OpEnter(1));
    var s3 := Do(s2, OpEnter(1));
    ReachedStep(s3, OpEnter(2));
    s := Do(s3, OpEnter(2));
  }

  lemma StartRuns()
    ensures Run([Initial()], [])
  {
    hide Initial;
  }

  /** The thread has one value in one cell of its record. */
  ghost predicate Loaded(s: State, t: nat, i: nat) {
    && t in s.contexts && s.contexts[t] == Context(Some(t), false, []) && t !in s.frames
    && t in s.heap && s.heap[t].life == Live && s.heap[t].kind == ThreadRecord && Holds(s, t, i)
  }

  ghost predicate Holds(s: State, t: nat, i: nat) {
    && t in s.heap && |s.heap[t].cells| == LIMIT && i < LIMIT == |s.slots|
    && s.heap[t].cells[i].value != 0 && s.heap[t].cells[i].generation == s.slots[i].generation
    && forall j :: 0 <= j < LIMIT && j != i ==> s.heap[t].cells[j].value == 0
  }

  lemma Loads(s: State, t: nat, i: nat) returns (s': State)
    requires Reached(s) && Small(s) && Idle(s, t) && 1 <= i <= 2
    ensures Reached(s') && Alone(s, s', t) && Loaded(s', t, i)
  {
    hide Inv;
    var op := OpSet(t, 0, i, 5, t);
    ReachedStep(s, op);
    s' := Do(s, op);
  }

  /** The rundown of the thread's record has come to cell `at`. */
  ghost predicate Ending(s: State, t: nat, i: nat, at: nat) {
    && t in s.contexts && s.contexts[t].cleanup == [t] && t in s.frames && Holds(s, t, i)
    && var o := s.frames[t];
    && o.kind == Rundown && o.context == t && o.fiber == 0 && o.record == Some(t) && !o.reserved && o.index == at
  }

  lemma Ends(s: State, t: nat, i: nat) returns (s': State)
    requires Reached(s) && Small(s) && Loaded(s, t, i) && 1 <= t <= 2
    ensures Reached(s') && Alone(s, s', t) && Ending(s', t, i, 1)
  {
    hide Inv;
    var op := OpKill(t, 0, t, false, false, t);
    ReachedStep(s, op);
    s' := Do(s, op);
  }

  lemma TopIsNested(s: State, t: nat)
    requires t in s.frames && s.frames[t].context == t && t in s.contexts && s.contexts[t].cleanup == [t]
    ensures Nested(s, OpRundown(t))
  {
  }

  lemma PassesCell(s: State, t: nat, i: nat, at: nat) returns (s': State)
    requires Reached(s) && Small(s) && Ending(s, t, i, at) && 1 <= at < i <= 2
    ensures Reached(s') && Alone(s, s', t) && Ending(s', t, i, at + 1)
  {
    hide Inv, Nested;
    TopIsNested(s, t);
    ReachedStep(s, OpRundown(t));
    s' := Do(s, OpRundown(t));
  }

  lemma Delivers(s: State, t: nat, i: nat) returns (s': State)
    requires Reached(s) && Small(s) && Ending(s, t, i, i) && 1 <= i <= 2
    ensures Reached(s') && Alone(s, s', t) && Inside(s', t, i)
  {
    hide Inv, Nested;
    TopIsNested(s, t);
    ReachedStep(s, OpRundown(t));
    s' := Do(s, OpRundown(t));
  }

  /** Each thread is inside the callback of one slot and retires the other. */
  lemma Ties(s: State) returns (s': State)
    requires Reached(s) && Small(s) && Inside(s, 1, 1) && Inside(s, 2, 2)
    ensures Reached(s') && Knot(s', {3, 4})
  {
    hide Inv;
    ReachedStep(s, OpFree(1, 0, 2, 3));
    var s1 := Do(s, OpFree(1, 0, 2, 3));
    ReachedStep(s1, OpFree(2, 0, 1, 4));
    s' := Do(s1, OpFree(2, 0, 1, 4));
    assert [3] + [1] == [3, 1] && [4] + [2] == [4, 2];
    assert s'.contexts[1].cleanup[0] == 3 && s'.contexts[1].cleanup[1] == 1;
    assert s'.contexts[2].cleanup[0] == 4 && s'.contexts[2].cleanup[1] == 2;
    assert Stuck(s', {3, 4}, 3, 2, 4) && Stuck(s', {3, 4}, 4, 1, 3);
  }

  /** A knot can be reached. */
  lemma KnotHappens() returns (s: State)
    ensures Reached(s) && Knot(s, {3, 4})
  {
    hide Reached, Knot;
    s := Starts();
    s := Loads(s, 1, 1);
    s := Ends(s, 1, 1);
    s := Delivers(s, 1, 1);
    s := Loads(s, 2, 2);
    s := Ends(s, 2, 2);
    s := PassesCell(s, 2, 2, 1);
    s := Delivers(s, 2, 2);
    s := Ties(s);
  }
}
