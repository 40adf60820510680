/**
 What `var()` substitution means: sections 2.3 and 3 of CSS Custom Properties for Cascading
 Variables Module Level 1, with short-circuit fallbacks and calls inside the first argument.
 Values of other properties come from an environment, so the definition is structural.
 */
module CssSubstitution {
  import opened Options
  import opened CssTokens
  import opened CssBrackets

  type Name = Text

  datatype Value = Invalid | Valid(tokens: Stream)

  type Env = map<Name, Value>

  function ValueIn(env: Env, name: Name): Value { if name in env then env[name] else Invalid }

  // ---- Arguments ----

  predicate IsStop(t: Token) { t == Symbol(59) || t == Symbol(33) }

  /** A top-level semicolon or exclamation mark. */
  predicate HasStop(ts: Stream, depth: int) {
    if ts == [] then false
    else if Closer(ts[0]) != 0 then HasStop(ts[1..], depth + 1)
    else if Closes(ts[0]) then HasStop(ts[1..], depth - 1)
    else (depth == 0 && IsStop(ts[0])) || HasStop(ts[1..], depth)
  }

  predicate ArgumentOk(ts: Stream, required: bool) { !(required && ts == []) && !HasStop(ts, 0) }

  predicate IsCustom(v: Text) { |v| > 2 && v[0] == 45 && v[1] == 45 }

  /** The property a first argument names, once substituted. */
  function KeyIn(stream: Stream): Option<Name> {
    var ts := Trim(stream);
    if |ts| == 1 && ts[0].Ident? && IsCustom(ts[0].value) then Some(ts[0].value) else None
  }

  function KeyOf(raw: Stream): Option<Name> { KeyIn(AppendAll([], raw)) }

  /** The parts of the text between the parentheses of a call. */
  function FirstPart(inner: Stream, comma: Option<nat>): (r: Stream)
    ensures |r| <= |inner|
  {
    match comma case None => inner case Some(c) => if c <= |inner| then inner[..c] else inner
  }

  function Fallback(inner: Stream, comma: Option<nat>): (r: Stream)
    ensures |r| <= |inner|
  {
    match comma case None => [] case Some(c) => if c < |inner| then inner[c + 1..] else []
  }

  predicate CallOk(inner: Stream, comma: Option<nat>) {
    ArgumentOk(FirstPart(inner, comma), true) && (comma.Some? ==> ArgumentOk(Fallback(inner, comma), false))
  }

  // ---- Substitution ----

  /** Tokens produced so far, and whether the whole is invalid at computed-value time. */
  datatype Sub = Sub(out: Stream, bad: bool)

  const NOTHING := Sub([], false)

  function Both(a: Sub, b: Sub): Sub { Sub(a.out + b.out, a.bad || b.bad) }

  /** Length of the first item: a token, or a whole `var(` call. */
  function ItemLength(ts: Stream): (n: nat)
    requires ts != []
    ensures 0 < n <= |ts|
  {
    if IsVar(ts[0]) && Find(ts[1..], 1).Some? then
      FindBounds(ts[1..], 1);
      Find(ts[1..], 1).value.close + 2
    else 1
  }

  function Inner(item: Stream): Stream
    requires |item| >= 2
  {
    item[1..|item| - 1]
  }

  function Substitute(env: Env, ts: Stream): Sub
    decreases |ts|, 1
  {
    if ts == [] then NOTHING
    else if !IsVar(ts[0]) then Both(Sub([ts[0]], false), Substitute(env, ts[1..]))
    else match Find(ts[1..], 1)
         case None => Sub([], true)
         case Some(a) =>
           FindBounds(ts[1..], 1);
           Both(SubstituteCall(env, ts[1..][..a.close], a.comma), Substitute(env, ts[1..][a.close + 1..]))
  }

  function SubstituteCall(env: Env, inner: Stream, comma: Option<nat>): Sub
    decreases |inner|, 2
  {
    if !CallOk(inner, comma) then Sub([], true)
    else
      TrimShorter(FirstPart(inner, comma));
      var first := Substitute(env, Trim(FirstPart(inner, comma)));
      var key := if first.bad then None else KeyOf(first.out);
      match if key.None? then Invalid else ValueIn(env, key.value)
      case Valid(tokens) => Sub(tokens, false)
      case Invalid => if comma.Some? then Substitute(env, Fallback(inner, comma)) else Sub([], true)
  }

  // ---- Which properties a substitution looks at ----

  function Key(env: Env, inner: Stream, comma: Option<nat>): Option<Name> {
    var first := Substitute(env, Trim(FirstPart(inner, comma)));
    if first.bad then None else KeyOf(first.out)
  }

  function KeyValue(env: Env, key: Option<Name>): Value { if key.None? then Invalid else ValueIn(env, key.value) }

  function References(env: Env, ts: Stream): set<Name>
    decreases |ts|, 1
  {
    if ts == [] then {}
    else if !IsVar(ts[0]) then References(env, ts[1..])
    else match Find(ts[1..], 1)
         case None => {}
         case Some(a) =>
           FindBounds(ts[1..], 1);
           CallReferences(env, ts[1..][..a.close], a.comma) + References(env, ts[1..][a.close + 1..])
  }

  function CallReferences(env: Env, inner: Stream, comma: Option<nat>): set<Name>
    decreases |inner|, 2
  {
    if !CallOk(inner, comma) then {}
    else
      TrimShorter(FirstPart(inner, comma));
      var key := Key(env, inner, comma);
      References(env, Trim(FirstPart(inner, comma)))
      + (if key.Some? then {key.value} else {})
      + (if KeyValue(env, key).Invalid? && comma.Some? then References(env, Fallback(inner, comma)) else {})
  }

  ghost predicate Agree(env: Env, env': Env, names: set<Name>) {
    forall n :: n in names ==> ValueIn(env', n) == ValueIn(env, n)
  }

  lemma AgreeSubset(env: Env, env': Env, names: set<Name>, fewer: set<Name>)
    requires Agree(env, env', names) && fewer <= names
    ensures Agree(env, env', fewer)
  {
  }

  /** A substitution depends on the environment only through the properties it looks at. */
  lemma {:induction false} SubstituteLocal(env: Env, env': Env, ts: Stream)
    requires Agree(env, env', References(env, ts))
    ensures Substitute(env', ts) == Substitute(env, ts) && References(env', ts) == References(env, ts)
    decreases |ts|, 1
  {
    hide Agree, Find;
    if ts == [] {
    } else if !IsVar(ts[0]) {
      SubstituteLocal(env, env', ts[1..]);
    } else {
      match Find(ts[1..], 1)
      case None =>
      case Some(a) =>
        FindBounds(ts[1..], 1);
        var inner, rest := ts[1..][..a.close], ts[1..][a.close + 1..];
        AgreeSubset(env, env', References(env, ts), CallReferences(env, inner, a.comma));
        AgreeSubset(env, env', References(env, ts), References(env, rest));
        CallLocal(env, env', inner, a.comma);
        SubstituteLocal(env, env', rest);
    }
  }

  lemma {:induction false} CallLocal(env: Env, env': Env, inner: Stream, comma: Option<nat>)
    requires Agree(env, env', CallReferences(env, inner, comma))
    ensures SubstituteCall(env', inner, comma) == SubstituteCall(env, inner, comma)
    ensures CallReferences(env', inner, comma) == CallReferences(env, inner, comma)
    decreases |inner|, 2
  {
    hide Trim, KeyOf, CallOk, FirstPart, Fallback;
    if CallOk(inner, comma) {
      var first, all := Trim(FirstPart(inner, comma)), CallReferences(env, inner, comma);
      TrimShorter(FirstPart(inner, comma));
      AgreeSubset(env, env', all, References(env, first));
      SubstituteLocal(env, env', first);
      var key := Key(env, inner, comma);
      assert Key(env', inner, comma) == key;
      assert KeyValue(env', key) == KeyValue(env, key) by {
        if key.Some? {
          assert key.value in all;
        }
      }
      if KeyValue(env, key).Invalid? && comma.Some? {
        AgreeSubset(env, env', all, References(env, Fallback(inner, comma)));
        SubstituteLocal(env, env', Fallback(inner, comma));
      }
    }
  }

  // ---- Item by item ----

  /** Every call in the stream finds its closing parenthesis inside the stream. */
  predicate Complete(ts: Stream)
    decreases |ts|
  {
    ts == [] || ((IsVar(ts[0]) ==> Find(ts[1..], 1).Some?) && Complete(ts[ItemLength(ts)..]))
  }

  /** The scan finds the end of a call also when more brackets are open outside it. */
  lemma {:induction false} FindInside(ts: Stream, stack: seq<nat>, under: seq<nat>)
    requires Open(ts, stack + [41] + under) == Some([])
    ensures Find(ts, |stack| + 1).Some?
    ensures var a := Find(ts, |stack| + 1).value; a.close < |ts| && Open(ts[a.close + 1..], under) == Some([])
    decreases |ts|
  {
    var all := stack + [41] + under;
    assert |all| > 0;
    if ts != [] {
      var t, rest := ts[0], ts[1..];
      if Closer(t) != 0 {
        assert [Closer(t)] + all == ([Closer(t)] + stack) + [41] + under;
        FindInside(rest, [Closer(t)] + stack, under);
        assert ts[Find(ts, |stack| + 1).value.close + 1..] == rest[Find(rest, |stack| + 2).value.close + 1..];
      } else if Closes(t) {
        if stack == [] {
          assert all[1..] == under;
          assert ts[1..] == rest;
        } else {
          assert all[1..] == stack[1..] + [41] + under;
          FindInside(rest, stack[1..], under);
          assert ts[Find(ts, |stack| + 1).value.close + 1..] == rest[Find(rest, |stack|).value.close + 1..];
        }
      } else {
        FindInside(rest, stack, under);
        assert ts[Find(ts, |stack| + 1).value.close + 1..] == rest[Find(rest, |stack| + 1).value.close + 1..];
      }
    }
  }

  lemma {:induction false} FindPrefix(ts: Stream, more: Stream, level: nat)
    requires level > 0 && Find(ts, level).Some?
    ensures Find(ts + more, level) == Find(ts, level)
    decreases |ts|
  {
    assert (ts + more)[1..] == ts[1..] + more;
    if Closer(ts[0]) != 0 {
      FindPrefix(ts[1..], more, level + 1);
    } else if Closes(ts[0]) {
      if level > 1 {
        FindPrefix(ts[1..], more, level - 1);
      }
    } else {
      FindPrefix(ts[1..], more, level);
    }
  }

  lemma NothingThen(a: Sub)
    ensures Both(NOTHING, a) == a
  {
  }

  lemma BothAssoc(a: Sub, b: Sub, c: Sub)
    ensures Both(Both(a, b), c) == Both(a, Both(b, c))
  {
  }

  /** A leading call takes the same tokens whether or not more follow. */
  lemma VarFirst(env: Env, a: Stream, b: Stream) returns (rest: Stream, call: Sub)
    requires Complete(a) && a != [] && IsVar(a[0])
    ensures |rest| < |a| && Complete(rest)
    ensures Substitute(env, a) == Both(call, Substitute(env, rest))
    ensures Substitute(env, a + b) == Both(call, Substitute(env, rest + b))
    ensures exists names ::
              && References(env, a) == names + References(env, rest)
              && References(env, a + b) == names + References(env, rest + b)
  {
    hide Find, SubstituteCall, CallReferences, Both;
    var arg := Find(a[1..], 1).value;
    FindBounds(a[1..], 1);
    FindPrefix(a[1..], b, 1);
    assert (a + b)[1..] == a[1..] + b;
    var inner := a[1..][..arg.close];
    rest, call := a[1..][arg.close + 1..], SubstituteCall(env, inner, arg.comma);
    assert (a + b)[1..][..arg.close] == inner && (a + b)[1..][arg.close + 1..] == rest + b;
    assert a[ItemLength(a)..] == rest;
    assert References(env, a) == CallReferences(env, inner, arg.comma) + References(env, rest);
    assert References(env, a + b) == CallReferences(env, inner, arg.comma) + References(env, rest + b);
  }

  /** Complete pieces are substituted one after the other. */
  lemma {:induction false} SubstituteConcat(env: Env, a: Stream, b: Stream)
    requires Complete(a)
    ensures Substitute(env, a + b) == Both(Substitute(env, a), Substitute(env, b))
    ensures References(env, a + b) == References(env, a) + References(env, b)
    decreases |a|
  {
    hide Find, SubstituteCall, CallReferences, Both;
    if a == [] {
      assert a + b == b;
      NothingThen(Substitute(env, b));
    } else if !IsVar(a[0]) {
      assert (a + b)[1..] == a[1..] + b;
      SubstituteConcat(env, a[1..], b);
      BothAssoc(Sub([a[0]], false), Substitute(env, a[1..]), Substitute(env, b));
    } else {
      var rest, call := VarFirst(env, a, b);
      SubstituteConcat(env, rest, b);
      BothAssoc(call, Substitute(env, rest), Substitute(env, b));
    }
  }

  lemma {:induction false} CompleteConcat(a: Stream, b: Stream)
    requires Complete(a) && Complete(b)
    ensures Complete(a + b)
    decreases |a|
  {
    hide Find;
    if a == [] {
      assert a + b == b;
    } else {
      assert (a + b)[1..] == a[1..] + b;
      if IsVar(a[0]) {
        FindPrefix(a[1..], b, 1);
        FindBounds(a[1..], 1);
      }
      assert (a + b)[ItemLength(a + b)..] == a[ItemLength(a)..] + b;
      CompleteConcat(a[ItemLength(a)..], b);
    }
  }

  // ---- Closure ----

  ghost predicate Plain(ts: Stream) { Balanced(ts) && NoVar(ts) }

  ghost predicate PlainValues(env: Env) {
    forall n :: n in env && env[n].Valid? ==> Plain(env[n].tokens)
  }

  lemma PlainConcat(a: Stream, b: Stream)
    requires Plain(a) && Plain(b)
    ensures Plain(a + b)
  {
    BalancedConcat(a, b);
  }

  ghost predicate Opens(ts: Stream, stack: seq<nat>) { Open(ts, stack) == Some([]) }

  /** Substituting plain values into matched text gives matched text without calls. */
  lemma {:induction false} SubstituteOpens(env: Env, ts: Stream, stack: seq<nat>)
    requires Opens(ts, stack) && PlainValues(env)
    ensures Opens(Substitute(env, ts).out, stack) && NoVar(Substitute(env, ts).out)
    decreases |ts|, 1
  {
    hide PlainValues;
    if ts == [] {
    } else if !IsVar(ts[0]) {
      var t, rest := ts[0], ts[1..];
      var next := if Closer(t) != 0 then [Closer(t)] + stack else if Closes(t) then stack[1..] else stack;
      SubstituteOpens(env, rest, next);
      var out := Substitute(env, rest).out;
      assert ([t] + out)[1..] == out;
    } else {
      assert [41] + stack == [] + [41] + stack;
      FindInside(ts[1..], [], stack);
      CallOpens(env, ts, stack);
    }
  }

  lemma {:induction false} CallOpens(env: Env, ts: Stream, stack: seq<nat>)
    requires ts != [] && IsVar(ts[0]) && Opens(ts, stack) && PlainValues(env) && Find(ts[1..], 1).Some?
    requires Find(ts[1..], 1).value.close < |ts[1..]| && Open(ts[1..][Find(ts[1..], 1).value.close + 1..], stack) == Some([])
    ensures Opens(Substitute(env, ts).out, stack) && NoVar(Substitute(env, ts).out)
    decreases |ts|, 0
  {
    hide PlainValues, SubstituteCall;
    var a := Find(ts[1..], 1).value;
    var inner, rest := ts[1..][..a.close], ts[1..][a.close + 1..];
    InnerBalanced(ts, stack);
    assert a.comma.Some? ==> inner[..a.comma.value] == ts[1..][..a.comma.value];
    CallPlain(env, inner, a.comma);
    SubstituteOpens(env, rest, stack);
    var x, y := SubstituteCall(env, inner, a.comma).out, Substitute(env, rest).out;
    OpenUnder(x, [], stack);
    assert [] + stack == stack;
    OpenConcat(x, y, stack);
  }

  lemma {:induction false} CallPlain(env: Env, inner: Stream, comma: Option<nat>)
    requires Balanced(inner) && PlainValues(env)
    requires comma.Some? ==> comma.value < |inner| && Balanced(inner[..comma.value]) && Balanced(inner[comma.value + 1..])
    ensures Plain(SubstituteCall(env, inner, comma).out)
    decreases |inner|, 2
  {
    hide Open, Trim, KeyOf, CallOk;
    assert Balanced([]) by { EmptyBalanced(); }
    if CallOk(inner, comma) {
      var key := Key(env, inner, comma);
      if KeyValue(env, key).Invalid? && comma.Some? {
        SubstituteOpens(env, inner[comma.value + 1..], []);
      }
    }
  }

  lemma EmptyBalanced()
    ensures Balanced([])
  {
  }

  /** Inside a call the text is matched on its own. */
  lemma InnerBalanced(ts: Stream, stack: seq<nat>)
    requires ts != [] && IsVar(ts[0]) && Opens(ts, stack) && Find(ts[1..], 1).Some?
    ensures var a, body := Find(ts[1..], 1).value, ts[1..];
      && a.close < |body| && Balanced(body[..a.close])
      && (a.comma.Some? ==>
            && a.comma.value < a.close && Balanced(body[..a.comma.value]) && Balanced(body[..a.close][a.comma.value + 1..]))
  {
    var body := ts[1..];
    assert [41] + stack == [] + [41] + stack;
    FindBounds(body, 1);
    FindInner(body, [], stack);
    var a := Find(body, 1).value;
    if a.comma.Some? {
      var c := a.comma.value;
      var inner := body[..a.close];
      assert inner == body[..c] + ([Symbol(44)] + inner[c + 1..]);
      BalancedConcat(body[..c], [Symbol(44)] + inner[c + 1..]);
      assert ([Symbol(44)] + inner[c + 1..])[1..] == inner[c + 1..];
    }
  }

  lemma {:induction false} FindInner(ts: Stream, stack: seq<nat>, under: seq<nat>)
    requires Open(ts, stack + [41] + under) == Some([]) && Find(ts, |stack| + 1).Some?
    ensures var a := Find(ts, |stack| + 1).value;
      && a.close < |ts| && Open(ts[..a.close], stack) == Some([])
      && (a.comma.Some? ==> a.comma.value < a.close && Open(ts[..a.comma.value], stack) == Some([]))
    decreases |ts|
  {
    var all, t, rest := stack + [41] + under, ts[0], ts[1..];
    var a := Find(ts, |stack| + 1).value;
    FindBounds(ts, |stack| + 1);
    assert ts[..0] == [];
    if Closes(t) && stack == [] {
    } else {
      var next := if Closer(t) != 0 then [Closer(t)] + stack else if Closes(t) then stack[1..] else stack;
      assert next + [41] + under == if Closer(t) != 0 then [Closer(t)] + all else if Closes(t) then all[1..] else all;
      FindInner(rest, next, under);
      FindStep(ts, stack, a.close);
      if a.comma.Some? && a.comma.value > 0 {
        FindStep(ts, stack, a.comma.value);
      }
    }
  }
}
