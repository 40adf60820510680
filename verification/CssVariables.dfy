/**
 The `var()` engine: memoizing, mutually recursive evaluation of a property table with cycle
 marking on an explicit stack.
 */
module CssVariables {
  import opened Options
  import opened CssTokens
  import opened CssBrackets
  import opened CssSubstitution
  import opened CssProperties

  datatype Status = Done | BadArgument | Limit | NotSupported | Malformed

  /** The closing parenthesis of a call and its first top-level comma, counting brackets. */
  method ScanCall(body: Stream) returns (found: bool, close: nat, comma: Option<nat>)
    ensures found == Find(body, 1).Some?
    ensures found ==> Find(body, 1) == Some(Argument(close, comma))
  {
    var level := 1;
    comma := None;
    assert body[0..] == body;
    ghost var all := Find(body, 1);
    close := 0;
    while close < |body|
      invariant close <= |body| && level > 0
      invariant ScanState(all, Find(body[close..], level), close, comma)
    {
      ScanStep(body, close, level);
      assert body[close..][1..] == body[close + 1..];
      var t := body[close];
      if Closer(t) != 0 {
        level := level + 1;
      } else if Closes(t) {
        if level == 1 {
          return true, close, comma;
        }
        level := level - 1;
      } else if t == Symbol(44) && level == 1 && comma.None? {
        comma := Some(close);
      }
      close := close + 1;
    }
    return false, close, comma;
  }

  /** What has been scanned determines the answer together with what is left. */
  ghost predicate ScanState(all: Option<Argument>, left: Option<Argument>, at: nat, comma: Option<nat>) {
    match left
    case None => all.None?
    case Some(Argument(close, later)) =>
      all == Some(Argument(at + close, if comma.Some? then comma else match later case None => None case Some(c) => Some(at + c)))
  }

  lemma ScanStep(body: Stream, at: nat, level: nat)
    requires at < |body| && level > 0
    ensures var t, rest := body[at], body[at + 1..];
      && (Closer(t) != 0 ==> Find(body[at..], level) == Later(Find(rest, level + 1)))
      && (Closer(t) == 0 && Closes(t) && level > 1 ==> Find(body[at..], level) == Later(Find(rest, level - 1)))
      && (Closer(t) == 0 && Closes(t) && level == 1 ==> Find(body[at..], level) == Some(Argument(0, None)))
      && (Closer(t) == 0 && !Closes(t) ==>
            var later := Later(Find(rest, level));
            Find(body[at..], level) ==
              if t == Symbol(44) && level == 1 && later.Some? then Some(Argument(later.value.close, Some(0))) else later)
  {
    assert body[at..][1..] == body[at + 1..];
  }

  method FindName(ps: Table, name: Name) returns (found: bool, i: nat)
    ensures found ==> i < |ps| && ps[i].name == name
    ensures !found ==> !Declared(ps, name)
  {
    for k: nat := 0 to |ps|
      invariant forall j :: 0 <= j < k ==> ps[j].name != name
    {
      if ps[k].name == name {
        return true, k;
      }
    }
    return false, 0;
  }

  // ---- Steps of the proof, on tables ----

  ghost predicate StackOk(ps: Table, stack: seq<nat>) {
    && (forall i: nat :: i in stack <==> i < |ps| && ps[i].phase == Busy)
    && forall i, j :: 0 <= i < j < |stack| ==> stack[i] != stack[j]
  }

  lemma {:induction false} DistinctBound(s: seq<nat>, n: nat)
    requires (forall i, j :: 0 <= i < j < |s| ==> s[i] != s[j]) && forall i :: 0 <= i < |s| ==> s[i] < n
    ensures |s| <= n
  {
    assert s != [] ==> s[0] < n;
    if n > 0 && n - 1 in s {
      var k :| 0 <= k < |s| && s[k] == n - 1;
      DistinctBound(s[..k] + s[k + 1..], n - 1);
    } else if n > 0 {
      DistinctBound(s, n - 1);
    }
  }

  /** The stack never holds the whole table while a property waits for its evaluation. */
  lemma StackFits(ps: Table, stack: seq<nat>, ix: nat)
    requires StackOk(ps, stack) && ix < |ps| && ps[ix].phase == Fresh
    ensures |stack| < |ps|
  {
    var all := stack + [ix];
    forall i | 0 <= i < |all| ensures all[i] < |ps| {
      assert all[i] in all;
    }
    forall i | 0 <= i < |stack| ensures stack[i] != ix {
      assert stack[i] in stack;
    }
    DistinctBound(all, |ps|);
  }

  /** The property under evaluation has not run into itself or into one below it. */
  ghost predicate Clean(ps: Table, stack: seq<nat>) {
    stack == [] || (stack[|stack| - 1] < |ps| && !ps[stack[|stack| - 1]].cycle)
  }

  ghost predicate AllFinished(ps: Table) { forall i :: 0 <= i < |ps| ==> ps[i].phase == Finished }

  lemma CleanBefore(a: Table, b: Table, stack: seq<nat>)
    requires Evolves(a, b) && StackOk(a, stack) && Clean(b, stack)
    ensures Clean(a, stack)
  {
    if stack != [] {
      var top := stack[|stack| - 1];
      assert top in stack;
      assert Evolved(a[top], b[top]);
    }
  }

  lemma FinishedStays(a: Table, b: Table)
    requires Evolves(a, b) && AllFinished(a)
    ensures b == a
  {
    forall i | 0 <= i < |a| ensures b[i] == a[i] {
      assert Evolved(a[i], b[i]);
    }
  }

  /** What a call comes to once its first argument is settled and the property it names is finished. */
  lemma CallResult(ps: Table, inner: Stream, comma: Option<nat>)
    requires Distinct(ps) && CallOk(inner, comma) && Settled(ps, Trim(FirstPart(inner, comma)))
    requires var key := Key(EnvOf(ps), inner, comma);
      && (key.Some? && Declared(ps, key.value) ==> key.value in EnvOf(ps))
      && (KeyValue(EnvOf(ps), key).Invalid? && comma.Some? ==> Settled(ps, Fallback(inner, comma)))
    ensures CallSettled(ps, inner, comma)
    ensures var key := Key(EnvOf(ps), inner, comma);
      SubstituteCall(EnvOf(ps), inner, comma) ==
        match KeyValue(EnvOf(ps), key)
        case Valid(tokens) => Sub(tokens, false)
        case Invalid => if comma.Some? then Substitute(EnvOf(ps), Fallback(inner, comma)) else Sub([], true)
  {
    hide Trim, KeyOf, CallOk, FirstPart, Fallback;
  }

  lemma BadCall(ps: Table, inner: Stream, comma: Option<nat>)
    requires Distinct(ps) && !CallOk(inner, comma)
    ensures CallSettled(ps, inner, comma) && SubstituteCall(EnvOf(ps), inner, comma) == Sub([], true)
  {
    hide CallOk;
  }

  /** One more item of a value. */
  lemma ItemAdds(ps: Table, done: Stream, item: Stream, out0: Stream, out: Stream, add: Sub, out': Stream)
    requires Distinct(ps) && Complete(done) && Settled(ps, done)
    requires out == AppendAll(out0, Substitute(EnvOf(ps), done).out) && out' == AppendAll(out, add.out)
    requires Substitute(EnvOf(ps), item) == add && Ready(ps, References(EnvOf(ps), item))
    ensures Settled(ps, done + item) && Substitute(EnvOf(ps), done + item) == Both(Substitute(EnvOf(ps), done), add)
    ensures out' == AppendAll(out0, Substitute(EnvOf(ps), done + item).out)
  {
    hide Substitute, References, Complete;
    SubstituteConcat(EnvOf(ps), done, item);
    AppendAllConcat(out0, Substitute(EnvOf(ps), done).out, add.out);
  }

  lemma TokenItem(env: Env, t: Token)
    requires !IsVar(t)
    ensures Complete([t]) && Substitute(env, [t]) == Sub([t], false) && References(env, [t]) == {}
  {
    assert [t][1..] == [];
    assert [t] + [] == [t];
  }

  lemma CallItem(env: Env, ts: Stream, a: Argument)
    requires ts != [] && IsVar(ts[0]) && Find(ts[1..], 1) == Some(a) && a.close + 2 <= |ts|
    ensures var item := ts[..a.close + 2];
      && Complete(item) && Substitute(env, item) == SubstituteCall(env, ts[1..][..a.close], a.comma)
      && References(env, item) == CallReferences(env, ts[1..][..a.close], a.comma)
  {
    hide SubstituteCall, CallReferences;
    var item, body := ts[..a.close + 2], ts[1..];
    assert item[1..] == body[..a.close + 1];
    FindCut(body, 1, a);
    var call := SubstituteCall(env, body[..a.close], a.comma);
    assert item[1..][..a.close] == body[..a.close] && item[1..][a.close + 1..] == [];
    assert call.out + [] == call.out;
    assert item[ItemLength(item)..] == [];
  }

  lemma {:induction false} FindCut(ts: Stream, level: nat, a: Argument)
    requires level > 0 && Find(ts, level) == Some(a)
    ensures a.close < |ts| && Find(ts[..a.close + 1], level) == Some(a)
    decreases |ts|
  {
    FindBounds(ts, level);
    var cut := ts[..a.close + 1];
    if Closes(ts[0]) && Closer(ts[0]) == 0 && level == 1 {
    } else {
      var next := if Closer(ts[0]) != 0 then level + 1 else if Closes(ts[0]) then level - 1 else level;
      FindCut(ts[1..], next, Find(ts[1..], next).value);
      assert cut[1..] == ts[1..][..a.close];
    }
  }

}
