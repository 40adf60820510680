/**
 The evaluator object: evaluation of one property, of one token range and of one call, each
 possibly entering the others.
 */
module CssEvaluator {
  import opened Options
  import opened CssBrackets
  import opened CssSubstitution
  import opened CssNormalize
  import opened CssRoom
  import opened CssProperties
  import opened CssVariables

  // ---- Steps of the proof, on tables ----

  ghost predicate Started(a: Table, ix: nat, b: Table) {
    ix < |a| && a[ix].phase == Fresh && b == a[ix := a[ix].(phase := Busy)]
  }

  lemma StartKeeps(a: Table, parent: Env, ix: nat, b: Table)
    requires TableOk(a, parent) && Started(a, ix, b)
    ensures TableOk(b, parent) && |Pending(b)| < |Pending(a)|
  {
    hide Settle, Settled, Plain;
    DistinctKept(a, b);
    forall i: nat | i < |b| ensures PropertyOk(b, parent, i) {
      assert PropertyOk(a, parent, i);
      if i != ix {
        PropertyKept(a, b, parent, i);
      }
    }
    assert Pending(b) == Pending(a) - {ix};
  }

  lemma StartStack(a: Table, stack: seq<nat>, ix: nat, b: Table)
    requires StackOk(a, stack) && Started(a, ix, b)
    ensures StackOk(b, stack + [ix])
  {
  }

  /** The property that was under evaluation is finished. */
  ghost predicate Ended(b: Table, ix: nat, value: Value, c: Table) {
    ix < |b| && b[ix].phase == Busy && !b[ix].fixed && c == b[ix := b[ix].(phase := Finished, value := value)]
  }

  lemma EndKeeps(b: Table, parent: Env, ix: nat, value: Value, c: Table)
    requires TableOk(b, parent) && Ended(b, ix, value, c)
    requires b[ix].cycle ==> value == Invalid
    requires !b[ix].cycle ==> Settled(b, b[ix].specified)
                              && Settle(parent, b[ix].name, Substitute(EnvOf(b), b[ix].specified)) == Some(value)
    requires !b[ix].cycle && !Substitute(EnvOf(b), b[ix].specified).bad ==>
      Fits(AppendAll([], Substitute(EnvOf(b), b[ix].specified).out))
    ensures TableOk(c, parent)
  {
    hide Settle, Settled, Substitute, Kept;
    assert KeepsFinished(b, c);
    DistinctKept(b, c);
    assert PropertyOk(b, parent, ix);
    if !b[ix].cycle {
      SettledKept(b, c, b[ix].specified);
      PlainEnv(b, parent);
      SettleKept(parent, b[ix].name, EnvOf(b), b[ix].specified);
    }
    forall i: nat | i < |c| ensures PropertyOk(c, parent, i) {
      if i != ix {
        assert PropertyOk(b, parent, i);
        PropertyKept(b, c, parent, i);
      }
    }
  }

  /** Start, evaluate, end: for everybody else the table has evolved. */
  lemma WholeEvolves(a: Table, ix: nat, b: Table, b': Table, value: Value, c: Table)
    requires Started(a, ix, b) && Evolves(b, b') && Ended(b', ix, value, c)
    ensures Evolves(a, c)
  {
    forall i | 0 <= i < |a| ensures Evolved(a[i], c[i]) {
      assert Evolved(b[i], b'[i]);
    }
  }

  lemma EndStack(b: Table, stack: seq<nat>, ix: nat, value: Value, c: Table)
    requires StackOk(b, stack + [ix]) && ix !in stack && Ended(b, ix, value, c)
    ensures StackOk(c, stack)
  {
    forall i: nat ensures i in stack <==> i < |c| && c[i].phase == Busy {
      assert i in stack + [ix] <==> i in stack || i == ix;
    }
    forall i, j | 0 <= i < j < |stack| ensures stack[i] != stack[j] {
      assert (stack + [ix])[i] == stack[i] && (stack + [ix])[j] == stack[j];
    }
  }

  lemma FreshNotOnStack(a: Table, stack: seq<nat>, ix: nat)
    requires StackOk(a, stack) && ix < |a| && a[ix].phase == Fresh
    ensures ix !in stack
  {
  }

  // ---- Steps under a meaning ----

  /** A meaning depends on names and specified values only. */
  lemma MeansCarried(a: Table, b: Table, parent: Env, m: Meaning)
    requires Distinct(a) && Means(a, parent, m) && SameNames(a, b)
    requires forall i :: 0 <= i < |a| ==>
               b[i].specified == a[i].specified && b[i].fixed == a[i].fixed && (a[i].fixed ==> b[i].value == a[i].value)
    ensures Means(b, parent, m)
  {
    hide Settle, Substitute, References;
    DistinctKept(a, b);
    forall i | 0 <= i < |b| ensures PropertyMeans(b, parent, m, b[i]) {
      assert PropertyMeans(a, parent, m, a[i]);
    }
  }

  lemma GuidedStart(a: Table, stack: seq<nat>, parent: Env, m: Option<Meaning>, bound: nat, ix: nat, b: Table)
    requires TableOk(a, parent) && Guided(a, stack, parent, m, bound) && Started(a, ix, b)
    requires m.Some? ==> m.value.rank(a[ix].name) < bound
    ensures Guided(b, stack + [ix], parent, m, if m.Some? then m.value.rank(a[ix].name) else 0)
    ensures m.Some? ==> Below(b, m.value, References(m.value.env, b[ix].specified), m.value.rank(a[ix].name))
  {
    hide Settle, Substitute, References, PropertyOk;
    if m.Some? {
      DistinctKept(a, b);
      NotFixed(a, parent, ix);
      assert PropertyMeans(a, parent, m.value, a[ix]);
      MeansCarried(a, b, parent, m.value);
      hide Means, PropertyMeans;
    }
  }

  lemma NotFixed(a: Table, parent: Env, ix: nat)
    requires TableOk(a, parent) && ix < |a| && a[ix].phase != Finished
    ensures !a[ix].fixed && Balanced(a[ix].specified)
  {
    hide Settle, Settled, Substitute;
    assert PropertyOk(a, parent, ix);
  }

  /** Under a meaning the finished value is the meaning's. */
  lemma GuidedEnd(b: Table, stack: seq<nat>, parent: Env, m: Option<Meaning>, bound: nat, inner: nat, ix: nat, value: Value, c: Table)
    requires TableOk(b, parent) && Guided(b, stack + [ix], parent, m, inner) && Ended(b, ix, value, c)
    requires m.Some? ==> StackAbove(b, stack, m.value, bound) && HasRoom(m.value, b[ix])
    requires m.Some? ==> Settled(b, b[ix].specified)
                         && Settle(parent, b[ix].name, Substitute(EnvOf(b), b[ix].specified)) == Some(value)
    ensures Guided(c, stack, parent, m, bound)
  {
    hide Settle, Substitute, References, PropertyOk;
    if m.Some? {
      SameUnderMeaning(b, parent, m.value, b[ix].specified);
      assert PropertyMeans(b, parent, m.value, b[ix]);
      MeansCarried(b, c, parent, m.value);
      hide Means, PropertyMeans;
    }
  }

  lemma BelowKept(a: Table, b: Table, m: Meaning, names: set<Name>, bound: nat)
    requires Distinct(a) && Evolves(a, b) && Below(a, m, names, bound)
    ensures Below(b, m, names, bound)
  {
    EvolvesKeeps(a, b);
    DistinctKept(a, b);
  }

  /** Under a meaning a call looks at properties below the bound only. */
  lemma GuidedCall(ps: Table, parent: Env, m: Meaning, inner: Stream, comma: Option<nat>, bound: nat)
    requires Distinct(ps) && Means(ps, parent, m) && Follows(ps, m)
    requires CallOk(inner, comma) && Settled(ps, Trim(FirstPart(inner, comma)))
    requires Below(ps, m, CallReferences(m.env, inner, comma), bound)
    ensures Key(m.env, inner, comma) == Key(EnvOf(ps), inner, comma)
    ensures var key := Key(EnvOf(ps), inner, comma);
      && (key.Some? && Declared(ps, key.value) ==> m.rank(key.value) < bound)
      && (KeyValue(m.env, key).Invalid? && comma.Some? ==> Below(ps, m, References(m.env, Fallback(inner, comma)), bound))
  {
    hide Trim, KeyOf, CallOk, FirstPart, Fallback, PropertyMeans, Settled;
    SameUnderMeaning(ps, parent, m, Trim(FirstPart(inner, comma)));
    var key := Key(m.env, inner, comma);
    if key.Some? {
      assert key.value in CallReferences(m.env, inner, comma);
    }
  }

  lemma GuidedFirst(ps: Table, m: Meaning, inner: Stream, comma: Option<nat>, bound: nat)
    requires CallOk(inner, comma) && Below(ps, m, CallReferences(m.env, inner, comma), bound)
    ensures Below(ps, m, References(m.env, Trim(FirstPart(inner, comma))), bound)
  {
    hide Trim, KeyOf, CallOk, FirstPart, Fallback;
  }

  lemma CleanUnderMeaning(ps: Table, stack: seq<nat>, m: Meaning)
    requires Follows(ps, m) && StackOk(ps, stack)
    ensures Clean(ps, stack)
  {
    if stack != [] {
      assert stack[|stack| - 1] in stack;
    }
  }

  // ---- Cycle marks ----

  ghost predicate Marked(a: Table, stack: seq<nat>, from: nat, b: Table) {
    && |b| == |a| && from <= |stack|
    && forall i: nat :: i < |a| ==> b[i] == if i in stack[from..] then a[i].(cycle := true) else a[i]
  }

  lemma MarkKeeps(a: Table, parent: Env, stack: seq<nat>, from: nat, b: Table)
    requires TableOk(a, parent) && StackOk(a, stack) && Marked(a, stack, from, b)
    ensures TableOk(b, parent) && StackOk(b, stack) && Evolves(a, b)
  {
    hide Settle, Settled, Plain;
    forall i: nat | i < |a| ensures i in stack[from..] ==> a[i].phase == Busy {
      assert i in stack[from..] ==> i in stack;
    }
    DistinctKept(a, b);
    forall i: nat | i < |b| ensures PropertyOk(b, parent, i) {
      assert PropertyOk(a, parent, i);
      if i !in stack[from..] {
        PropertyKept(a, b, parent, i);
      }
    }
  }

  lemma OrderlyMark(a: Table, parent: Env, stack: seq<nat>, from: nat, ix: nat, b: Table)
    requires TableOk(a, parent) && Orderly(a) && StackOk(a, stack) && Marked(a, stack, from, b)
    requires ix < |a| && a[ix].phase == Busy
    ensures Orderly(b)
  {
    hide TableOk, Orderly;
    forall i: nat | i < |a| ensures i in stack[from..] ==> a[i].phase == Busy {
      assert i in stack[from..] ==> i in stack;
    }
    OrderlyStep(a, b, parent, ix);
  }

  method MarkCycle(ps: Table, stack: seq<nat>, ix: nat) returns (r: Table, from: nat)
    requires ix in stack && forall i :: i in stack ==> i < |ps|
    ensures from < |stack| && stack[from] == ix && ix !in stack[..from]
    ensures Marked(ps, stack, from, r)
  {
    var k := 0;
    while stack[k] != ix
      invariant k < |stack| && ix in stack[k..] && ix !in stack[..k]
      decreases |stack| - k
    {
      assert stack[k..] == [stack[k]] + stack[k + 1..];
      k := k + 1;
    }
    from := k;
    r := ps;
    while k < |stack|
      invariant from <= k <= |stack| && |r| == |ps|
      invariant forall i: nat :: i < |ps| ==> r[i] == if i in stack[from..k] then ps[i].(cycle := true) else ps[i]
    {
      assert stack[from..k + 1] == stack[from..k] + [stack[k]];
      assert stack[k] in stack;
      r := r[stack[k] := r[stack[k]].(cycle := true)];
      k := k + 1;
    }
    assert stack[from..|stack|] == stack[from..];
  }

  /** Everything that holds once a property has been put on the stack. */
  lemma Begins(a: Table, stack: seq<nat>, parent: Env, m: Option<Meaning>, bound: nat, ix: nat, b: Table)
    requires TableOk(a, parent) && StackOk(a, stack) && Orderly(a) && Guided(a, stack, parent, m, bound) && Started(a, ix, b)
    requires m.Some? ==> m.value.rank(a[ix].name) < bound
    ensures TableOk(b, parent) && StackOk(b, stack + [ix]) && Orderly(b) && |Pending(b)| < |Pending(a)| && ix !in stack
    ensures Balanced(b[ix].specified) && !b[ix].fixed
    ensures Guided(b, stack + [ix], parent, m, if m.Some? then m.value.rank(a[ix].name) else 0)
    ensures m.Some? ==> Below(b, m.value, References(m.value.env, b[ix].specified), m.value.rank(a[ix].name))
  {
    hide TableOk, Orderly, Guided, References, Below;
    FreshNotOnStack(a, stack, ix);
    NotFixed(a, parent, ix);
    StartKeeps(a, parent, ix, b);
    StartStack(a, stack, ix, b);
    OrderlyBegin(a, parent, ix, b);
    GuidedStart(a, stack, parent, m, bound, ix, b);
  }

  lemma OrderlyBegin(a: Table, parent: Env, ix: nat, b: Table)
    requires TableOk(a, parent) && Orderly(a) && Started(a, ix, b)
    ensures Orderly(b)
  {
    hide TableOk, Orderly;
    OrderlyStep(a, b, parent, ix);
  }

  /** Everything that holds once it is finished. */
  lemma Concludes(before: Table, started: Table, ended: Table, bottom: seq<nat>, parent: Env, m: Option<Meaning>,
                  bound: nat, inner: nat, ix: nat, bad: bool, value: Value, c: Table)
    requires TableOk(before, parent) && StackOk(before, bottom) && Guided(before, bottom, parent, m, bound)
    requires Started(before, ix, started) && Evolves(started, ended) && Ended(ended, ix, value, c)
    requires TableOk(ended, parent) && StackOk(ended, bottom + [ix]) && Orderly(ended)
    requires Guided(ended, bottom + [ix], parent, m, inner) && (m.Some? ==> HasRoom(m.value, ended[ix]))
    requires !ended[ix].cycle ==>
      Settled(ended, ended[ix].specified) && bad == Substitute(EnvOf(ended), ended[ix].specified).bad
    requires !ended[ix].cycle && !bad ==> Fits(AppendAll([], Substitute(EnvOf(ended), ended[ix].specified).out))
    requires bad || ended[ix].cycle ==> value == Invalid
    requires !bad && !ended[ix].cycle ==> Settle(parent, ended[ix].name, Substitute(EnvOf(ended), ended[ix].specified)) == Some(value)
    ensures TableOk(c, parent) && StackOk(c, bottom) && Orderly(c) && Evolves(before, c) && Guided(c, bottom, parent, m, bound)
  {
    hide TableOk, Orderly, Guided, Settle, Settled, Substitute;
    FreshNotOnStack(before, bottom, ix);
    SettledBad(ended, parent, ix, bad, value);
    EndKeeps(ended, parent, ix, value, c);
    EndStack(ended, bottom, ix, value, c);
    OrderlyEnd(ended, parent, ix, value, c);
    WholeEvolves(before, ix, started, ended, value, c);
    GuidedFinish(before, started, ended, bottom, parent, m, bound, inner, ix, value, c);
  }

  lemma OrderlyEnd(b: Table, parent: Env, ix: nat, value: Value, c: Table)
    requires TableOk(b, parent) && Orderly(b) && Ended(b, ix, value, c) && (!b[ix].cycle ==> Settled(b, b[ix].specified))
    ensures Orderly(c)
  {
    hide TableOk, Orderly, Settled;
    OrderlyStep(b, c, parent, ix);
  }

  // ---- Why an evaluation stops ----

  /** The refusal of a substituted value. */
  function RefusalOf(sub: Sub): Status {
    var value := Normalize(AppendAll([], sub.out));
    if value.Normal? && IsRevert(value.tokens) then NotSupported else StatusOf(value)
  }

  function StatusOf(value: Normal): Status {
    match value
    case Rejected => Malformed
    case TooDeep => Limit
    case Unsupported => NotSupported
    case Normal(_) => Done
  }

  /** An unfinished, unmarked property whose substitution is complete, not invalid, and refused. */
  ghost predicate StuckAt(ps: Table, i: nat, status: Status)
    requires Distinct(ps) && i < |ps|
  {
    var p := ps[i];
    var sub := Substitute(EnvOf(ps), p.specified);
    && p.phase != Finished && !p.cycle && Settled(ps, p.specified)
    && !sub.bad && RefusalOf(sub) == status
  }

  ghost predicate Stuck(ps: Table, parent: Env, status: Status) {
    TableOk(ps, parent) && exists i: nat :: i < |ps| && StuckAt(ps, i, status)
  }

  /** The evaluation of `a` stopped at `b`: at a limit, or because a value is refused. */
  ghost predicate Stops(a: Table, b: Table, parent: Env, status: Status) {
    SameSpecs(a, b) && (status == Limit || Stuck(b, parent, status))
  }

  lemma StopsLater(a: Table, b: Table, c: Table, parent: Env, status: Status)
    requires Evolves(a, b) && Stops(b, c, parent, status)
    ensures Stops(a, c, parent, status)
  {
    hide Stuck;
    EvolvesSpecs(a, b);
  }

  lemma StopsFromStart(a: Table, ix: nat, b: Table, c: Table, parent: Env, status: Status)
    requires Started(a, ix, b) && Stops(b, c, parent, status)
    ensures Stops(a, c, parent, status)
  {
    hide Stuck;
  }

  /** Under a meaning only limits stop an evaluation: it needs the room, and the room suffices. */
  ghost predicate Completes(ps: Table, m: Option<Meaning>, room: bool, status: Status) {
    m.Some? ==>
      && (status == Done ==> room) && (room && Roomy(ps, m.value) ==> status == Done)
      && (status == Done || status == Limit)
  }

  /** A refused value leaves a stuck table behind. */
  lemma RefusedIsStuck(b: Table, parent: Env, ix: nat, status: Status, c: Table)
    requires TableOk(b, parent) && ix < |b| && b[ix].phase == Busy && !b[ix].cycle && c == b[ix := b[ix].(phase := Fresh)]
    requires Settled(b, b[ix].specified) && !Substitute(EnvOf(b), b[ix].specified).bad
    requires RefusalOf(Substitute(EnvOf(b), b[ix].specified)) == status
    ensures Stuck(c, parent, status)
  {
    hide Settle, Settled, Substitute, Plain, RefusalOf;
    DistinctKept(b, c);
    assert KeepsFinished(b, c);
    SettledKept(b, c, b[ix].specified);
    forall i: nat | i < |c| ensures PropertyOk(c, parent, i) {
      assert PropertyOk(b, parent, i);
      if i != ix {
        PropertyKept(b, c, parent, i);
      }
    }
    assert StuckAt(c, ix, status);
  }

  /** Under a meaning no substituted value is refused. */
  lemma GuidedSettles(b: Table, stack: seq<nat>, parent: Env, m: Meaning, bound: nat, ix: nat)
    requires TableOk(b, parent) && Guided(b, stack, parent, Some(m), bound) && ix < |b| && !b[ix].fixed
    requires Settled(b, b[ix].specified)
    ensures Settle(parent, b[ix].name, Substitute(EnvOf(b), b[ix].specified)).Some?
  {
    hide Settle, Substitute, References, PropertyOk;
    SameUnderMeaning(b, parent, m, b[ix].specified);
    assert PropertyMeans(b, parent, m, b[ix]);
  }

  class Evaluator {
    const parent: Env
    var props: Table
    var stack: seq<nat>

    constructor (parent: Env, props: Table)
      ensures this.parent == parent && this.props == props && stack == []
    {
      this.parent, this.props, stack := parent, props, [];
    }

    ghost predicate Inv()
      reads this
    {
      TableOk(props, parent) && StackOk(props, stack) && Orderly(props)
    }

    /** The value of a property whose specified value has been substituted. */
    method FinalValue(p: Property, out: Stream, bad: bool, ghost sub: Sub) returns (status: Status, value: Value)
      requires !bad && !p.cycle ==> !sub.bad && out == AppendAll([], sub.out)
      ensures bad || p.cycle ==> status == Done && value == Invalid
      ensures !bad && !p.cycle ==> status == RefusalOf(sub) && (status == Done <==> Settle(parent, p.name, sub).Some?)
      ensures status == Done && !bad && !p.cycle ==> Settle(parent, p.name, sub) == Some(value)
    {
      hide Settle, AppendAll, RefusalOf;
      status, value := Done, Invalid;
      if !bad && !p.cycle {
        status, value := SettleStream(parent, p.name, out, sub);
      }
    }

    /** Marks the properties of the cycle that a busy property closes. */
    method CloseCycle(ix: nat)
      requires Inv() && ix < |props| && props[ix].phase == Busy
      modifies this`props
      ensures Inv() && Evolves(old(props), props) && !Clean(props, stack)
    {
      hide TableOk, StackOk, Orderly;
      ghost var before := props;
      OnStack(props, stack, ix);
      var from;
      props, from := MarkCycle(props, stack, ix);
      MarkKeeps(before, parent, stack, from, props);
      TopMarked(before, stack, from, props);
      OrderlyMark(before, parent, stack, from, ix, props);
    }

    /** Evaluates one property unless it is finished; a busy one closes a cycle. */
    method Evaluate(ix: nat, ghost m: Option<Meaning>, ghost bound: nat) returns (status: Status)
      requires Inv() && ix < |props| && Guided(props, stack, parent, m, bound)
      requires m.Some? ==> m.value.rank(props[ix].name) < bound
      modifies this
      decreases |Pending(props)|, 0, 0
      ensures status == Done ==> Inv() && Evolves(old(props), props) && stack == old(stack)
      ensures status == Done ==> Guided(props, stack, parent, m, bound)
      ensures status == Done ==> if old(props)[ix].phase == Busy then !Clean(props, stack) else props[ix].phase == Finished
      ensures Completes(old(props), m, true, status)
      ensures status != Done ==> Stops(old(props), props, parent, status)
      ensures AllFinished(old(props)) ==> props == old(props)
    {
      hide TableOk, StackOk, Orderly, Settle, Settled, Substitute, Guided, References, Below, Normalize, Plain, RefusalOf, Stuck, Roomy, Room;
      ghost var before, bottom := props, stack;
      if props[ix].phase == Finished {
        EvolvesSelf(props);
        return Done;
      }
      if props[ix].phase == Busy {
        OnStack(props, stack, ix);
        NotGuidedBusy(props, stack, parent, m, bound, ix);
        CloseCycle(ix);
        NoMeaning(props, stack, parent, bound);
        return Done;
      }
      if |stack| >= PROPERTY_MAX {
        StackLimit(props, stack, ix, m);
        return Limit;
      }
      props := props[ix := props[ix].(phase := Busy)];
      stack := stack + [ix];
      ghost var started := props;
      ghost var inner := if m.Some? then m.value.rank(before[ix].name) else 0;
      Begins(before, bottom, parent, m, bound, ix, started);
      var out, bad;
      RoomToStart(before, ix, started, m);
      status, out, bad := Range(props[ix].specified, [], 0, m, inner);
      if status != Done {
        StopsFromStart(before, ix, started, props, parent, status);
        return;
      }
      ghost var ended := props;
      StillBusy(started, ended, ix);
      CleanTop(ended, bottom, ix);
      stack := stack[..|stack| - 1];
      assert stack == bottom;
      var value;
      status, value := FinalValue(props[ix], out, bad, Substitute(CurrentEnv(ended, parent), props[ix].specified));
      if status != Done {
        props := props[ix := props[ix].(phase := Fresh)];
        Refusal(before, started, ended, bottom, parent, m, inner, ix, status, props);
        return;
      }
      props := props[ix := props[ix].(phase := Finished, value := value)];
      Concludes(before, started, ended, bottom, parent, m, bound, inner, ix, bad, value, props);
    }

    /** Substitutes a token range, appending to `out0`. */
    method Range(seg: Stream, out0: Stream, depth: nat, ghost m: Option<Meaning>, ghost bound: nat)
      returns (status: Status, out: Stream, bad: bool)
      requires Inv() && Balanced(seg) && (stack == [] ==> AllFinished(props)) && Guided(props, stack, parent, m, bound)
      requires m.Some? ==> Below(props, m.value, References(m.value.env, seg), bound)
      modifies this
      decreases |Pending(props)|, |seg|, 1
      ensures status == Done ==> Inv() && Evolves(old(props), props) && stack == old(stack)
      ensures status == Done ==> Guided(props, stack, parent, m, bound)
      ensures status == Done && Clean(props, stack) ==> RangeDone(props, seg, out0, out, bad)
      ensures Completes(old(props), m, m.Some? && Room(m.value.env, seg, out0, depth), status)
      ensures status == Done && Compact(out0) ==> Compact(out)
      ensures status != Done ==> Stops(old(props), props, parent, status)
      ensures AllFinished(old(props)) ==> props == old(props)
    {
      hide Compact, TableOk, StackOk, Orderly, Settled, Substitute, References, Means, Follows, RangeDone, CallDone, Find, Complete, Open, StackAbove, Below,
        Room, CallRoom, Roomy, Stuck, FitsAll, SubstituteCall;
      out, bad := out0, false;
      if depth > DEPTH_MAX {
        TooDeepForRoom(m, seg, out0, depth);
        return Limit, out, bad;
      }
      ghost var before, bottom := props, stack;
      ghost var left: seq<nat> := [];
      var i := 0;
      EvolvesSelf(props);
      assert seg[0..] == seg && seg[..0] == [];
      RangeStarts(props, parent, out0);
      while i < |seg|
        invariant i <= |seg| && Inv() && Evolves(before, props) && stack == bottom && Guided(props, stack, parent, m, bound)
        invariant Open(seg[i..], left) == Some([]) && Complete(seg[..i])
        invariant Clean(props, stack) ==> RangeDone(props, seg[..i], out0, out, bad)
        invariant AllFinished(before) ==> props == before
        invariant Compact(out0) ==> Compact(out)
        invariant m.Some? ==> (Room(m.value.env, seg, out0, depth) <==> Room(m.value.env, seg[i..], out, depth))
      {
        var t := seg[i];
        if !IsVar(t) {
          if m.Some? {
            RoomToken(m.value.env, seg, i, out, depth);
          }
          var ok, next := AppendTokens(out, [t]);
          if !ok {
            EvolvesSpecs(before, props);
            return Limit, out, bad;
          }
          TokenDone(props, parent, stack, seg, i, out0, out, bad, next);
          left := OpenAfter(seg, i, left);
          out := next;
          i := i + 1;
        } else {
          CallFound(seg, i, left);
          var found, close, comma := ScanCall(seg[i + 1..]);
          if !found {
            assert false;
          }
          FindBounds(seg[i + 1..], 1);
          var inner := seg[i + 1..][..close];
          RangeCallParts(seg, i, left, Argument(close, comma));
          RangeBelow(before, props, parent, m, bound, seg, i, Argument(close, comma));
          PendingShrinks(before, props);
          ghost var prior := props;
          ghost var soFar, badSoFar := out, bad;
          FinishedWhenIdle(before, props, bottom);
          if m.Some? {
            RoomCall(m.value.env, seg, i, Argument(close, comma), out, depth);
            EvolvesSpecs(before, prior);
            RoomyKept(before, prior, m.value);
          }
          var callBad;
          status, out, callBad := Call(inner, comma, out, depth, m, bound);
          if status != Done {
            StopsLater(before, prior, props, parent, status);
            return;
          }
          if m.Some? {
            CallUnderMeaning(props, stack, parent, m.value, bound, inner, comma, soFar, out, callBad);
          }
          bad := bad || callBad;
          EvolvesTransitive(before, prior, props);
          if Clean(props, stack) {
            CleanBefore(prior, props, stack);
            CallAdds(prior, props, parent, seg, i, Argument(close, comma), out0, soFar, badSoFar, out, callBad);
          }
          i := i + close + 2;
        }
      }
      assert seg[..|seg|] == seg && seg[|seg|..] == [];
      if m.Some? {
        RoomEnds(m.value.env, out, depth);
      }
      status := Done;
    }

    /** Evaluates the first argument of a call and the property that it names. */
    method Target(inner: Stream, comma: Option<nat>, depth: nat, ghost m: Option<Meaning>, ghost bound: nat)
      returns (status: Status, found: bool, ix: nat, ghost key: Option<Name>)
      requires Inv() && (stack == [] ==> AllFinished(props)) && Guided(props, stack, parent, m, bound)
      requires InnerOk(inner, comma) && CallOk(inner, comma)
      requires m.Some? ==> Below(props, m.value, CallReferences(m.value.env, inner, comma), bound)
      modifies this
      decreases |Pending(props)|, |inner|, 2
      ensures status == Done ==> Inv() && Evolves(old(props), props) && stack == old(stack)
      ensures status == Done ==> Guided(props, stack, parent, m, bound)
      ensures status == Done && found ==> ix < |props|
      ensures status == Done && Clean(props, stack) ==> Targeted(props, inner, comma, key, found, ix)
      ensures status == Done && m.Some? && comma.Some? && !(found && Gives(props, ix)) ==>
        Below(props, m.value, References(m.value.env, Fallback(inner, comma)), bound)
      ensures Completes(old(props), m, m.Some? && Room(m.value.env, Trim(FirstPart(inner, comma)), [], depth + 1), status)
      ensures status != Done ==> Stops(old(props), props, parent, status)
      ensures AllFinished(old(props)) ==> props == old(props)
      ensures status == Done && m.Some? ==>
        KeyValue(m.value.env, Key(m.value.env, inner, comma)) == if found && Gives(props, ix) then props[ix].value else Invalid
    {
      hide Compact, TableOk, StackOk, Orderly, Settled, Substitute, References, Means, Follows, RangeDone, Trim, CallOk, KeyOf, Below,
        StackAbove, FirstPart, Fallback, Open, Room, Roomy, Stuck, SubstituteCall, CallReferences, SameSpecs, Find, KeyIn;
      ghost var p0 := props;
      EvolvesSelf(props);
      PiecesBalanced(inner, comma);
      TrimShorter(FirstPart(inner, comma));
      if m.Some? {
        GuidedFirst(props, m.value, inner, comma, bound);
      }
      var first, bad;
      status, first, bad := Range(Trim(FirstPart(inner, comma)), [], depth + 1, m, bound);
      found, ix, key := false, 0, None;
      if status != Done {
        return;
      }
      ghost var p1 := props;
      PendingShrinks(p0, p1);
      EvolvesSpecs(p0, p1);
      if m.Some? {
        RoomyKept(p0, p1, m.value);
      }
      var name := if bad then None else KeyIn(first);
      key := name;
      if Clean(p1, stack) {
        KeyFromRange(p1, inner, comma, first, bad);
      }
      if m.Some? {
        GuidedReady(p0, p1, parent, m, bound, stack, inner, comma, key);
      }
      if name.Some? {
        found, ix := FindName(props, name.value);
        if found {
          if m.Some? {
            DeclaredAt(props, ix, name.value);
          }
          status := Evaluate(ix, m, bound);
          if status != Done {
            StopsLater(p0, p1, props, parent, status);
            return;
          }
          EvolvesTransitive(p0, p1, props);
        }
      }
      LookedIs(p1, props, stack, key, found, ix);
      TargetReached(p0, p1, props, parent, m, bound, stack, inner, comma, first, key, found, ix);
    }

    /** Substitutes one call with proper arguments, or notes that it is invalid. */
    method Call(inner: Stream, comma: Option<nat>, out0: Stream, depth: nat, ghost m: Option<Meaning>, ghost bound: nat)
      returns (status: Status, out: Stream, bad: bool)
      requires Inv() && (stack == [] ==> AllFinished(props)) && Guided(props, stack, parent, m, bound)
      requires InnerOk(inner, comma)
      requires m.Some? ==> Below(props, m.value, CallReferences(m.value.env, inner, comma), bound)
      modifies this
      decreases |Pending(props)|, |inner|, 3
      ensures status == Done ==> Inv() && Evolves(old(props), props) && stack == old(stack)
      ensures status == Done ==> Guided(props, stack, parent, m, bound)
      ensures status == Done && Clean(props, stack) ==> CallDone(props, inner, comma, out0, out, bad)
      ensures Completes(old(props), m, m.Some? && CallRoom(m.value.env, inner, comma, out0, depth), status)
      ensures status == Done && Compact(out0) ==> Compact(out)
      ensures status != Done ==> Stops(old(props), props, parent, status)
      ensures AllFinished(old(props)) ==> props == old(props)
    {
      hide Compact, TableOk, StackOk, Orderly, Settled, Substitute, References, Means, Follows, RangeDone, CallDone, Trim, CallOk, KeyOf, Below,
        StackAbove, FirstPart, Fallback, Open, Targeted, Room, CallRoom, Roomy, Stuck, FitsAll;
      ghost var p0 := props;
      EvolvesSelf(props);
      if m.Some? {
        CallRoomIs(m.value.env, inner, comma, out0, depth);
      }
      if !CallOk(inner, comma) {
        CallIsBad(props, parent, inner, comma, out0);
        return Done, out0, true;
      }
      out, bad := out0, false;
      var found, ix;
      ghost var key;
      status, found, ix, key := Target(inner, comma, depth, m, bound);
      if status != Done {
        return;
      }
      ghost var p2 := props;
      PendingShrinks(p0, p2);
      EvolvesSpecs(p0, p2);
      if m.Some? {
        RoomyKept(p0, p2, m.value);
      }
      if found && Gives(props, ix) {
        var ok;
        ok, out := AppendTokens(out, props[ix].value.tokens);
        if !ok {
          return Limit, out, false;
        }
        if Clean(p2, stack) {
          CallTakes(p2, parent, inner, comma, key, ix, out0, out);
        }
        return Done, out, false;
      }
      if comma.None? {
        if Clean(p2, stack) {
          CallFails(p2, parent, inner, comma, key, found, ix, out0);
        }
        return Done, out, true;
      }
      FinishedWhenIdle(p0, p2, stack);
      PiecesBalanced(inner, comma);
      FallbackShorter(inner, comma);
      status, out, bad := Range(Fallback(inner, comma), out, depth + 1, m, bound);
      if status != Done {
        StopsLater(p0, p2, props, parent, status);
      } else {
        EvolvesTransitive(p0, p2, props);
        if Clean(props, stack) {
          CleanBefore(p2, props, stack);
          CallFallsBack(p2, props, parent, inner, comma, key, found, ix, out0, out, bad);
        }
      }
    }
  }

  ghost predicate CallDone(ps: Table, inner: Stream, comma: Option<nat>, out0: Stream, out: Stream, bad: bool) {
    && Distinct(ps) && CallSettled(ps, inner, comma)
    && out == AppendAll(out0, SubstituteCall(EnvOf(ps), inner, comma).out) && bad == SubstituteCall(EnvOf(ps), inner, comma).bad
  }

  ghost predicate InnerOk(inner: Stream, comma: Option<nat>) {
    && Balanced(inner)
    && (comma.Some? ==> comma.value < |inner| && Balanced(inner[..comma.value]) && Balanced(inner[comma.value + 1..]))
  }

  // ---- Steps within the limits ----

  lemma StackLimit(ps: Table, stack: seq<nat>, ix: nat, m: Option<Meaning>)
    requires StackOk(ps, stack) && ix < |ps| && ps[ix].phase == Fresh && |stack| >= PROPERTY_MAX
    ensures Completes(ps, m, true, Limit)
  {
    hide StackOk, Room;
    StackFits(ps, stack, ix);
  }

  lemma TooDeepForRoom(m: Option<Meaning>, seg: Stream, out: Stream, depth: nat)
    requires depth > DEPTH_MAX
    ensures m.Some? ==> !Room(m.value.env, seg, out, depth)
  {
  }

  lemma RoomToStart(a: Table, ix: nat, b: Table, m: Option<Meaning>)
    requires Started(a, ix, b)
    ensures SameSpecs(a, b)
    ensures m.Some? ==> (Roomy(a, m.value) <==> Roomy(b, m.value)) && (Roomy(a, m.value) ==> HasRoom(m.value, b[ix]))
  {
    hide Room;
    if m.Some? {
      RoomyKept(a, b, m.value);
    }
  }

  /** A refusal under no meaning; under one there is none. */
  lemma Refusal(before: Table, started: Table, ended: Table, bottom: seq<nat>, parent: Env, m: Option<Meaning>, bound: nat,
                ix: nat, status: Status, c: Table)
    requires Started(before, ix, started) && Evolves(started, ended) && TableOk(ended, parent)
    requires Guided(ended, bottom + [ix], parent, m, bound)
    requires ix < |ended| && ended[ix].phase == Busy && !ended[ix].fixed && !ended[ix].cycle
    requires Settled(ended, ended[ix].specified) && !Substitute(EnvOf(ended), ended[ix].specified).bad
    requires RefusalOf(Substitute(EnvOf(ended), ended[ix].specified)) == status
    requires Settle(parent, ended[ix].name, Substitute(EnvOf(ended), ended[ix].specified)).None?
    requires c == ended[ix := ended[ix].(phase := Fresh)]
    ensures m.None? && Stops(before, c, parent, status)
  {
    hide TableOk, Guided, Settle, Settled, Substitute, RefusalOf, Stuck;
    if m.Some? {
      GuidedSettles(ended, bottom + [ix], parent, m.value, bound, ix);
    }
    RefusedIsStuck(ended, parent, ix, status, c);
    EvolvesSpecs(started, ended);
  }

  lemma CallRoomIs(env: Env, inner: Stream, comma: Option<nat>, out: Stream, depth: nat)
    ensures CallRoom(env, inner, comma, out, depth) <==>
      (CallOk(inner, comma) ==>
         && Room(env, Trim(FirstPart(inner, comma)), [], depth + 1)
         && var value := KeyValue(env, Key(env, inner, comma));
         && (value.Valid? ==> FitsAll(out, value.tokens))
         && (value.Invalid? && comma.Some? ==> Room(env, Fallback(inner, comma), out, depth + 1)))
  {
    hide Room, FitsAll, CallOk, KeyOf, Trim, FirstPart, Fallback;
  }

  /** Under a meaning a call adds what it adds under the meaning's values. */
  lemma CallUnderMeaning(ps: Table, stack: seq<nat>, parent: Env, m: Meaning, bound: nat, inner: Stream, comma: Option<nat>,
                         out0: Stream, out: Stream, bad: bool)
    requires Guided(ps, stack, parent, Some(m), bound) && StackOk(ps, stack)
    requires Clean(ps, stack) ==> CallDone(ps, inner, comma, out0, out, bad)
    ensures out == AppendAll(out0, SubstituteCall(m.env, inner, comma).out)
  {
    hide SubstituteCall, CallReferences, PropertyMeans, Room;
    CleanUnderMeaning(ps, stack, m);
    forall n | n in CallReferences(EnvOf(ps), inner, comma) ensures ValueIn(m.env, n) == ValueIn(EnvOf(ps), n) {
      if Declared(ps, n) {
        var i :| 0 <= i < |ps| && ps[i].name == n;
        EnvAt(ps, i);
      }
    }
    CallLocal(EnvOf(ps), m.env, inner, comma);
  }

  /** Under a meaning the look-up finds the value that the key has there. */
  lemma GuidedKey(ps: Table, parent: Env, m: Meaning, bound: nat, stack: seq<nat>, inner: Stream, comma: Option<nat>,
                  key: Option<Name>, found: bool, ix: nat)
    requires Guided(ps, stack, parent, Some(m), bound) && StackOk(ps, stack) && (found ==> ix < |ps|)
    requires Clean(ps, stack) ==> Targeted(ps, inner, comma, key, found, ix)
    ensures KeyValue(m.env, Key(m.env, inner, comma)) == if found && Gives(ps, ix) then ps[ix].value else Invalid
  {
    hide Substitute, References, Trim, FirstPart, Fallback, CallOk, KeyOf, PropertyMeans, Settled, Room;
    CleanUnderMeaning(ps, stack, m);
    SameUnderMeaning(ps, parent, m, Trim(FirstPart(inner, comma)));
    assert Key(m.env, inner, comma) == key;
  }

  lemma TargetReached(p0: Table, p1: Table, p2: Table, parent: Env, m: Option<Meaning>, bound: nat, stack: seq<nat>,
                      inner: Stream, comma: Option<nat>, first: Stream, key: Option<Name>, found: bool, ix: nat)
    requires TableOk(p0, parent) && TableOk(p1, parent) && TableOk(p2, parent) && Evolves(p0, p1)
    requires Looked(p1, p2, stack, key, found, ix) && StackOk(p1, stack) && StackOk(p2, stack)
    requires Guided(p2, stack, parent, m, bound) && CallOk(inner, comma)
    requires m.Some? ==> Below(p0, m.value, CallReferences(m.value.env, inner, comma), bound)
    requires Clean(p1, stack) ==> Settled(p1, Trim(FirstPart(inner, comma))) && Key(EnvOf(p1), inner, comma) == key
    ensures Clean(p2, stack) ==> Targeted(p2, inner, comma, key, found, ix)
    ensures m.Some? ==>
      KeyValue(m.value.env, Key(m.value.env, inner, comma)) == if found && Gives(p2, ix) then p2[ix].value else Invalid
    ensures m.Some? && comma.Some? && !(found && Gives(p2, ix)) ==>
      Below(p2, m.value, References(m.value.env, Fallback(inner, comma)), bound)
  {
    assert Distinct(p1);
    hide TableOk, StackOk, Guided, Settled, Substitute, References, CallReferences, Trim, CallOk, KeyOf, FirstPart, Fallback, Below;
    if Clean(p2, stack) {
      CleanFirst(p0, p1, p2, parent, stack, inner, comma, first, key, found, ix);
    }
    if m.Some? {
      GuidedKey(p2, parent, m.value, bound, stack, inner, comma, key, found, ix);
      if comma.Some? && !(found && Gives(p2, ix)) {
        GuidedFallback(p0, p1, p2, parent, m, bound, stack, inner, comma, key, found, ix);
      }
    }
  }

  // ---- Steps of a range ----

  lemma RangeStarts(ps: Table, parent: Env, out0: Stream)
    requires TableOk(ps, parent)
    ensures RangeDone(ps, [], out0, out0, false) && Complete([]) && Distinct(ps)
  {
  }

  lemma FinishedWhenIdle(a: Table, b: Table, stack: seq<nat>)
    requires Evolves(a, b) && (stack == [] ==> AllFinished(a))
    ensures stack == [] ==> AllFinished(b)
  {
    if stack == [] {
      FinishedStays(a, b);
    }
  }

  lemma TokenDone(ps: Table, parent: Env, stack: seq<nat>, seg: Stream, i: nat, out0: Stream, out: Stream, bad: bool, next: Stream)
    requires TableOk(ps, parent) && i < |seg| && !IsVar(seg[i]) && Complete(seg[..i]) && next == AppendAll(out, [seg[i]])
    requires Clean(ps, stack) ==> RangeDone(ps, seg[..i], out0, out, bad)
    ensures Complete(seg[..i + 1]) && (Clean(ps, stack) ==> RangeDone(ps, seg[..i + 1], out0, next, bad))
  {
    hide Substitute, References, Complete;
    assert seg[..i + 1] == seg[..i] + [seg[i]];
    assert Distinct(ps);
    TokenItem(EnvOf(ps), seg[i]);
    CompleteConcat(seg[..i], [seg[i]]);
    if Clean(ps, stack) {
      ItemAdds(ps, seg[..i], [seg[i]], out0, out, Sub([seg[i]], false), next);
    }
  }

  ghost function OpenAfter(seg: Stream, i: nat, left: seq<nat>): (r: seq<nat>)
    requires i < |seg| && Open(seg[i..], left) == Some([]) && !IsVar(seg[i])
    ensures Open(seg[i + 1..], r) == Some([])
  {
    var t := seg[i];
    assert seg[i..][1..] == seg[i + 1..];
    if Closer(t) != 0 then [Closer(t)] + left else if Closes(t) then left[1..] else left
  }

  lemma CallFound(seg: Stream, i: nat, left: seq<nat>)
    requires i < |seg| && IsVar(seg[i]) && Open(seg[i..], left) == Some([])
    ensures Find(seg[i + 1..], 1).Some?
  {
    assert seg[i..][1..] == seg[i + 1..];
    assert [41] + left == [] + [41] + left;
    FindInside(seg[i + 1..], [], left);
  }

  lemma CallInner(ts: Stream, left: seq<nat>, a: Argument)
    requires ts != [] && IsVar(ts[0]) && Open(ts, left) == Some([]) && Find(ts[1..], 1) == Some(a)
    ensures a.close + 2 <= |ts| && InnerOk(ts[1..][..a.close], a.comma) && Open(ts[a.close + 2..], left) == Some([])
  {
    hide Find;
    InnerBalanced(ts, left);
    assert [41] + left == [] + [41] + left;
    FindInside(ts[1..], [], left);
    assert ts[1..][a.close + 1..] == ts[a.close + 2..];
    var inner := ts[1..][..a.close];
    assert a.comma.Some? ==> inner[..a.comma.value] == ts[1..][..a.comma.value];
  }

  lemma RangeCallParts(seg: Stream, i: nat, left: seq<nat>, a: Argument)
    requires i < |seg| && IsVar(seg[i]) && Open(seg[i..], left) == Some([]) && Find(seg[i + 1..], 1) == Some(a)
    requires Complete(seg[..i])
    ensures i + a.close + 2 <= |seg| && InnerOk(seg[i + 1..][..a.close], a.comma)
    ensures Open(seg[i + a.close + 2..], left) == Some([]) && Complete(seg[..i + a.close + 2])
  {
    hide Complete, Open, Find, InnerOk;
    var ts := seg[i..];
    assert ts[1..] == seg[i + 1..];
    CallInner(ts, left, a);
    assert ts[a.close + 2..] == seg[i + a.close + 2..];
    CallItem(map[], ts, a);
    CompleteConcat(seg[..i], ts[..a.close + 2]);
    assert seg[..i + a.close + 2] == seg[..i] + ts[..a.close + 2];
  }

  lemma SplitReferences(env: Env, seg: Stream, i: nat, a: Argument)
    requires i < |seg| && IsVar(seg[i]) && Find(seg[i + 1..], 1) == Some(a) && i + a.close + 2 <= |seg| && Complete(seg[..i])
    ensures CallReferences(env, seg[i + 1..][..a.close], a.comma) <= References(env, seg)
  {
    hide CallReferences, Complete;
    var ts := seg[i..];
    assert seg == seg[..i] + ts && ts[1..] == seg[i + 1..];
    SubstituteConcat(env, seg[..i], ts);
    FindBounds(ts[1..], 1);
  }

  lemma RangeBelow(before: Table, ps: Table, parent: Env, m: Option<Meaning>, bound: nat, seg: Stream, i: nat, a: Argument)
    requires Distinct(before) && Evolves(before, ps)
    requires i < |seg| && IsVar(seg[i]) && Find(seg[i + 1..], 1) == Some(a) && i + a.close + 2 <= |seg|
    requires Complete(seg[..i])
    requires m.Some? ==> Below(before, m.value, References(m.value.env, seg), bound)
    ensures m.Some? ==> Below(ps, m.value, CallReferences(m.value.env, seg[i + 1..][..a.close], a.comma), bound)
  {
    hide CallReferences, References, Complete;
    if m.Some? {
      SplitReferences(m.value.env, seg, i, a);
      BelowKept(before, ps, m.value, References(m.value.env, seg), bound);
    }
  }

  lemma CallAdds(prior: Table, ps: Table, parent: Env, seg: Stream, i: nat, a: Argument, out0: Stream, out: Stream, bad: bool,
                 out': Stream, callBad: bool)
    requires TableOk(prior, parent) && Evolves(prior, ps)
    requires i < |seg| && IsVar(seg[i]) && Find(seg[i + 1..], 1) == Some(a) && i + a.close + 2 <= |seg| && Complete(seg[..i])
    requires RangeDone(prior, seg[..i], out0, out, bad)
    requires CallDone(ps, seg[i + 1..][..a.close], a.comma, out, out', callBad)
    ensures RangeDone(ps, seg[..i + a.close + 2], out0, out', bad || callBad)
  {
    hide Substitute, References, Complete, SubstituteCall, CallReferences;
    EvolvesKeeps(prior, ps);
    SettledKept(prior, ps, seg[..i]);
    var ts := seg[i..];
    assert ts[1..] == seg[i + 1..];
    CallItem(EnvOf(ps), ts, a);
    var item := ts[..a.close + 2];
    assert seg[..i + a.close + 2] == seg[..i] + item;
    ItemAdds(ps, seg[..i], item, out0, out, Substitute(EnvOf(ps), item), out');
  }

  // ---- Steps of a call ----

  lemma PiecesBalanced(inner: Stream, comma: Option<nat>)
    requires InnerOk(inner, comma)
    ensures Balanced(Trim(FirstPart(inner, comma))) && Balanced(Fallback(inner, comma))
  {
    TrimBalanced(FirstPart(inner, comma));
  }

  lemma CallIsBad(ps: Table, parent: Env, inner: Stream, comma: Option<nat>, out0: Stream)
    requires TableOk(ps, parent) && !CallOk(inner, comma)
    ensures CallDone(ps, inner, comma, out0, out0, true)
  {
    hide CallOk;
    BadCall(ps, inner, comma);
  }

  lemma KeyFromRange(ps: Table, inner: Stream, comma: Option<nat>, first: Stream, bad: bool)
    requires RangeDone(ps, Trim(FirstPart(inner, comma)), [], first, bad)
    ensures Distinct(ps) && Settled(ps, Trim(FirstPart(inner, comma)))
    ensures Key(EnvOf(ps), inner, comma) == if bad then None else KeyIn(first)
  {
    hide Trim, FirstPart;
  }

  /** What the look-up of the named property established. */
  ghost predicate Looked(p1: Table, p2: Table, stack: seq<nat>, key: Option<Name>, found: bool, ix: nat) {
    && Evolves(p1, p2)
    && (found ==> key.Some? && ix < |p2| && p2[ix].name == key.value && (Clean(p2, stack) ==> p2[ix].phase == Finished))
    && (!found && key.Some? ==> !Declared(p2, key.value))
  }

  lemma LookedIs(p1: Table, p2: Table, stack: seq<nat>, key: Option<Name>, found: bool, ix: nat)
    requires Evolves(p1, p2) && (found ==> key.Some? && ix < |p1| && p1[ix].name == key.value)
    requires found && p1[ix].phase == Busy ==> !Clean(p2, stack)
    requires found && p1[ix].phase != Busy ==> p2[ix].phase == Finished
    requires !found ==> p2 == p1
    requires !found && key.Some? ==> !Declared(p1, key.value)
    ensures Looked(p1, p2, stack, key, found, ix)
  {
    if found {
      assert Evolved(p1[ix], p2[ix]);
    }
  }

  lemma DeclaredAt(ps: Table, ix: nat, name: Name)
    requires ix < |ps| && ps[ix].name == name
    ensures Declared(ps, name)
  {
  }

  /** The property has a value that a call can take. */
  predicate Gives(ps: Table, ix: nat)
    requires ix < |ps|
  {
    ps[ix].phase == Finished && !ps[ix].cycle && ps[ix].value.Valid?
  }

  /** The first argument is settled, its key is final, and the property it names, if declared, is finished. */
  ghost predicate Targeted(ps: Table, inner: Stream, comma: Option<nat>, key: Option<Name>, found: bool, ix: nat) {
    && Distinct(ps) && CallOk(inner, comma) && Settled(ps, Trim(FirstPart(inner, comma))) && Key(EnvOf(ps), inner, comma) == key
    && (found ==> key.Some? && ix < |ps| && ps[ix].name == key.value && ps[ix].phase == Finished)
    && (!found && key.Some? ==> !Declared(ps, key.value))
  }

  lemma FallbackShorter(inner: Stream, comma: Option<nat>)
    requires InnerOk(inner, comma) && comma.Some?
    ensures |Fallback(inner, comma)| <= |inner|
  {
  }

  /** When the evaluation is still clean, the first argument is settled and its key is final. */
  lemma CleanFirst(p0: Table, p1: Table, p2: Table, parent: Env, stack: seq<nat>, inner: Stream, comma: Option<nat>,
                   first: Stream, key: Option<Name>, found: bool, ix: nat)
    requires TableOk(p0, parent) && Evolves(p0, p1) && Looked(p1, p2, stack, key, found, ix) && StackOk(p1, stack) && Clean(p2, stack)
    requires Clean(p1, stack) ==>
      Distinct(p1) && Settled(p1, Trim(FirstPart(inner, comma))) && Key(EnvOf(p1), inner, comma) == key
    ensures Distinct(p2) && Settled(p2, Trim(FirstPart(inner, comma))) && Key(EnvOf(p2), inner, comma) == key
    ensures found ==> key.Some? && ix < |p2| && p2[ix].name == key.value && p2[ix].phase == Finished
    ensures !found && key.Some? ==> !Declared(p2, key.value)
  {
    hide Substitute, References, Trim, FirstPart, KeyOf;
    CleanBefore(p1, p2, stack);
    EvolvesKeeps(p1, p2);
    SettledKept(p1, p2, Trim(FirstPart(inner, comma)));
  }

  lemma CallTakes(ps: Table, parent: Env, inner: Stream, comma: Option<nat>, key: Option<Name>, ix: nat, out0: Stream, out: Stream)
    requires TableOk(ps, parent) && Targeted(ps, inner, comma, key, true, ix)
    requires ix < |ps| && Gives(ps, ix) && out == AppendAll(out0, ps[ix].value.tokens)
    ensures CallDone(ps, inner, comma, out0, out, false)
  {
    hide Substitute, References, Trim, FirstPart, Fallback, CallOk, KeyOf, SubstituteCall, CallReferences, PropertyOk;
    EnvAt(ps, ix);
    CallResult(ps, inner, comma);
  }

  lemma KeyIsInvalid(ps: Table, parent: Env, key: Option<Name>, found: bool, ix: nat)
    requires TableOk(ps, parent)
    requires found ==> key.Some? && ix < |ps| && ps[ix].name == key.value && ps[ix].phase == Finished
                       && (ps[ix].cycle || ps[ix].value.Invalid?)
    requires !found && key.Some? ==> !Declared(ps, key.value)
    ensures KeyValue(EnvOf(ps), key).Invalid? && (key.Some? && Declared(ps, key.value) ==> key.value in EnvOf(ps))
  {
    hide Settle, Settled, Plain;
    if found {
      assert PropertyOk(ps, parent, ix);
      EnvAt(ps, ix);
    }
  }

  lemma CallFails(ps: Table, parent: Env, inner: Stream, comma: Option<nat>, key: Option<Name>, found: bool, ix: nat, out0: Stream)
    requires TableOk(ps, parent) && Targeted(ps, inner, comma, key, found, ix) && comma.None?
    requires found ==> ix < |ps| && !Gives(ps, ix)
    ensures CallDone(ps, inner, comma, out0, out0, true)
  {
    hide Substitute, References, Trim, FirstPart, Fallback, CallOk, KeyOf, SubstituteCall, CallReferences, PropertyOk;
    KeyIsInvalid(ps, parent, key, found, ix);
    CallResult(ps, inner, comma);
  }

  lemma CallFallsBack(p2: Table, ps: Table, parent: Env, inner: Stream, comma: Option<nat>, key: Option<Name>, found: bool, ix: nat,
                      out0: Stream, out: Stream, bad: bool)
    requires TableOk(p2, parent) && Evolves(p2, ps) && TableOk(ps, parent)
    requires Targeted(p2, inner, comma, key, found, ix) && comma.Some?
    requires found ==> ix < |p2| && !Gives(p2, ix)
    requires RangeDone(ps, Fallback(inner, comma), out0, out, bad)
    ensures CallDone(ps, inner, comma, out0, out, bad)
  {
    hide Substitute, References, Trim, FirstPart, Fallback, CallOk, KeyOf, SubstituteCall, CallReferences, PropertyOk;
    EvolvesKeeps(p2, ps);
    SettledKept(p2, ps, Trim(FirstPart(inner, comma)));
    DistinctKept(p2, ps);
    if found {
      assert Evolved(p2[ix], ps[ix]);
    }
    KeyIsInvalid(ps, parent, key, found, ix);
    CallResult(ps, inner, comma);
  }

  /** Under a meaning the named property lies below the bound. */
  lemma GuidedReady(p0: Table, p1: Table, parent: Env, m: Option<Meaning>, bound: nat, stack: seq<nat>,
                    inner: Stream, comma: Option<nat>, key: Option<Name>)
    requires TableOk(p0, parent) && TableOk(p1, parent) && Evolves(p0, p1) && StackOk(p1, stack) && m.Some?
    requires Guided(p1, stack, parent, m, bound) && CallOk(inner, comma)
    requires Below(p0, m.value, CallReferences(m.value.env, inner, comma), bound)
    requires Clean(p1, stack) ==> Settled(p1, Trim(FirstPart(inner, comma))) && Key(EnvOf(p1), inner, comma) == key
    ensures key.Some? && Declared(p1, key.value) ==> m.value.rank(key.value) < bound
  {
    hide CallReferences, Trim, FirstPart, Fallback, CallOk, KeyOf, PropertyOk, Means, Settled;
    CleanUnderMeaning(p1, stack, m.value);
    BelowKept(p0, p1, m.value, CallReferences(m.value.env, inner, comma), bound);
    GuidedCall(p1, parent, m.value, inner, comma, bound);
  }

  lemma GuidedFallback(p0: Table, p1: Table, p2: Table, parent: Env, m: Option<Meaning>, bound: nat, stack: seq<nat>,
                       inner: Stream, comma: Option<nat>, key: Option<Name>, found: bool, ix: nat)
    requires TableOk(p0, parent) && TableOk(p1, parent) && TableOk(p2, parent) && Evolves(p0, p1) && m.Some? && comma.Some?
    requires Looked(p1, p2, stack, key, found, ix) && StackOk(p1, stack) && StackOk(p2, stack)
    requires Guided(p2, stack, parent, m, bound) && CallOk(inner, comma)
    requires Below(p0, m.value, CallReferences(m.value.env, inner, comma), bound)
    requires Clean(p1, stack) ==> Settled(p1, Trim(FirstPart(inner, comma))) && Key(EnvOf(p1), inner, comma) == key
    requires !(found && p2[ix].phase == Finished && !p2[ix].cycle && p2[ix].value.Valid?)
    ensures Below(p2, m.value, References(m.value.env, Fallback(inner, comma)), bound)
  {
    hide CallReferences, References, Substitute, Trim, FirstPart, Fallback, CallOk, KeyOf, PropertyOk, Settled;
    CleanUnderMeaning(p2, stack, m.value);
    CleanFirst(p0, p1, p2, parent, stack, inner, comma, [], key, found, ix);
    EvolvesTransitive(p0, p1, p2);
    BelowKept(p0, p2, m.value, CallReferences(m.value.env, inner, comma), bound);
    GuidedCall(p2, parent, m.value, inner, comma, bound);
  }

  ghost predicate RangeDone(ps: Table, seg: Stream, out0: Stream, out: Stream, bad: bool) {
    && Distinct(ps) && Settled(ps, seg)
    && out == AppendAll(out0, Substitute(EnvOf(ps), seg).out) && bad == Substitute(EnvOf(ps), seg).bad
  }

  ghost function CurrentEnv(ps: Table, parent: Env): Env
    requires TableOk(ps, parent)
  {
    EnvOf(ps)
  }

  lemma OnStack(ps: Table, stack: seq<nat>, ix: nat)
    requires StackOk(ps, stack) && ix < |ps| && ps[ix].phase == Busy
    ensures ix in stack && forall i :: i in stack ==> i < |ps|
  {
  }

  lemma NoMeaning(ps: Table, stack: seq<nat>, parent: Env, bound: nat)
    ensures Guided(ps, stack, parent, None, bound)
  {
  }

  lemma NotGuidedBusy(ps: Table, stack: seq<nat>, parent: Env, m: Option<Meaning>, bound: nat, ix: nat)
    requires Guided(ps, stack, parent, m, bound) && ix in stack && ix < |ps|
    requires m.Some? ==> m.value.rank(ps[ix].name) < bound
    ensures m.None?
  {
  }

  lemma TopMarked(a: Table, stack: seq<nat>, from: nat, b: Table)
    requires Marked(a, stack, from, b) && from < |stack| && StackOk(a, stack)
    ensures !Clean(b, stack)
  {
    var top := stack[|stack| - 1];
    assert top == stack[from..][|stack| - 1 - from];
    assert top in stack[from..] && top in stack;
  }

  lemma StillBusy(a: Table, b: Table, ix: nat)
    requires Evolves(a, b) && ix < |a| && a[ix].phase == Busy
    ensures |b| == |a| && b[ix].phase == Busy && b[ix].specified == a[ix].specified
    ensures b[ix].name == a[ix].name && b[ix].fixed == a[ix].fixed
  {
    assert Evolved(a[ix], b[ix]);
  }

  lemma CleanTop(b: Table, bottom: seq<nat>, ix: nat)
    requires ix < |b|
    ensures Clean(b, bottom + [ix]) <==> !b[ix].cycle
  {
  }

  /** The last checks on a substituted value. */
  method SettleStream(parent: Env, name: Name, out: Stream, ghost sub: Sub) returns (status: Status, value: Value)
    requires !sub.bad && out == AppendAll([], sub.out)
    ensures status == RefusalOf(sub) && (status == Done <==> Settle(parent, name, sub).Some?)
    ensures status == Done ==> Settle(parent, name, sub) == Some(value)
  {
    hide Normalize, Trim, IsWord;
    value := Invalid;
    var normal := NormalizeStream(out);
    match normal
    case Rejected => return Malformed, value;
    case TooDeep => return Limit, value;
    case Unsupported => return NotSupported, value;
    case Normal(ts) =>
      if IsRevert(ts) {
        return NotSupported, value;
      }
      if IsKeyword(ts, "initial") {
        return Done, Invalid;
      }
      if IsInherit(ts) {
        return Done, ValueIn(parent, name);
      }
      return Done, Valid(ts);
  }

  lemma SettledBad(b: Table, parent: Env, ix: nat, bad: bool, value: Value)
    requires TableOk(b, parent) && ix < |b|
    requires !b[ix].cycle ==> Settled(b, b[ix].specified) && bad == Substitute(EnvOf(b), b[ix].specified).bad
    requires bad ==> value == Invalid
    ensures !b[ix].cycle && bad ==> Settle(parent, b[ix].name, Substitute(EnvOf(b), b[ix].specified)) == Some(value)
  {
  }

  lemma GuidedFinish(before: Table, started: Table, ended: Table, bottom: seq<nat>, parent: Env, m: Option<Meaning>,
                     bound: nat, inner: nat, ix: nat, value: Value, c: Table)
    requires TableOk(before, parent) && Started(before, ix, started) && Evolves(started, ended) && TableOk(ended, parent)
    requires Guided(before, bottom, parent, m, bound) && Guided(ended, bottom + [ix], parent, m, inner)
    requires Ended(ended, ix, value, c) && (m.Some? ==> HasRoom(m.value, ended[ix]))
    requires m.Some? && !ended[ix].cycle ==>
      && Settled(ended, ended[ix].specified)
      && Settle(parent, ended[ix].name, Substitute(EnvOf(ended), ended[ix].specified)) == Some(value)
    ensures Guided(c, bottom, parent, m, bound)
  {
    hide Settle, Substitute, References, PropertyOk, Settled, Means;
    if m.Some? {
      forall i | i in bottom ensures i < |ended| && m.value.rank(ended[i].name) >= bound {
        assert Evolved(started[i], ended[i]);
      }
      GuidedEnd(ended, bottom, parent, m, bound, inner, ix, value, c);
    }
  }
}
