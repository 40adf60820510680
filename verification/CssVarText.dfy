/**
 What the text of a `var()` call comes to: the value of the property it names, the fallback, or
 invalidity.
 */
module CssVarText {
  import opened Options
  import opened CssTokens
  import opened CssVarRead
  import opened CssBrackets
  import opened CssSubstitution
  import opened CssNormalize
  import opened CssRoom
  import opened CssProperties
  import opened CssVariables

  // ---- A call without fallback ----

  function CallTokens(w: Text, n: Text): Stream { [Token.Function(w), Ident(n), Symbol(41)] }

  lemma NameIsFirst(env: Env, n: Text)
    requires Dashed(n)
    ensures Trim([Ident(n)]) == [Ident(n)] && ArgumentOk([Ident(n)], true)
    ensures Substitute(env, [Ident(n)]) == Sub([Ident(n)], false) && KeyOf([Ident(n)]) == Some(n)
  {
    var ts := [Ident(n)];
    assert ts[1..] == [] && ts[0..] == ts && ts[..1] == ts;
    assert [Ident(n)] + [] == ts;
    NameCopies(n);
  }

  lemma NameCopies(n: Text)
    ensures AppendAll([], [Ident(n)]) == [Ident(n)]
  {
    var ts := [Ident(n)];
    assert ts[1..] == [] && Append([], ts[0]) == [] + ts == ts;
  }

  lemma NameHasRoom(env: Env, n: Text)
    requires Dashed(n) && |n| <= INPUT_MAX
    ensures Room(env, [Ident(n)], [], 1)
  {
    var ts := [Ident(n)];
    NameCopies(n);
    assert ts[..1] == ts && ts[1..] == [] && PoolOf(ts[..0]) == 0;
    assert Fits(ts);
    assert FitsAll([], [ts[0]]);
  }

  lemma CallFinds(w: Text, n: Text)
    requires VarWord(w) && Dashed(n)
    ensures var ts := CallTokens(w, n);
      && IsVar(ts[0]) && ts[1..] == [Ident(n), Symbol(41)] && Find(ts[1..], 1) == Some(Argument(1, None))
      && ts[1..][..1] == [Ident(n)] && ts[1..][2..] == []
  {
    var body := CallTokens(w, n)[1..];
    assert body == [Ident(n), Symbol(41)] && body[1..] == [Symbol(41)];
  }

  lemma CallIsNormal(w: Text, n: Text)
    requires VarWord(w) && Dashed(n)
    ensures Normalize(CallTokens(w, n)) == Normal(CallTokens(w, n))
  {
    hide Find, Walk;
    var ts := CallTokens(w, n);
    CallFinds(w, n);
    CallWalk(w, n);
    assert ts + [] == ts;
    assert CallOk([Ident(n)], None) by { NameIsFirst(map[], n); }
    assert CallAtOk(ts, 0) && CallAtOk(ts, 1) && CallAtOk(ts, 2);
  }

  lemma CallWalk(w: Text, n: Text)
    requires VarWord(w) && Dashed(n)
    ensures Walk(CallTokens(w, n), 0, [], false) == Walked([], false)
  {
    hide Walk;
    var ts, call := CallTokens(w, n), [Frame(41, true)];
    assert call + [] == call && call[1..] == [];
    assert !Refused(ts, 0, []) && !Refused(ts, 1, call) && !Refused(ts, 2, call);
    WalkStep(ts, 0, [], false);
    WalkStep(ts, 1, call, false);
    WalkStep(ts, 2, call, false);
    WalkEnds(ts, [], false);
  }

  lemma CallSubstitutes(env: Env, w: Text, n: Text)
    requires VarWord(w) && Dashed(n)
    ensures Substitute(env, CallTokens(w, n)) ==
      match ValueIn(env, n) case Valid(tokens) => Sub(tokens, false) case Invalid => Sub([], true)
  {
    hide Trim, KeyOf, Find;
    CallFinds(w, n);
    NameIsFirst(env, n);
    var call := SubstituteCall(env, [Ident(n)], None);
    assert call.out + [] == call.out;
  }

  lemma CallHasRoom(env: Env, w: Text, n: Text)
    requires VarWord(w) && Dashed(n) && |n| <= INPUT_MAX && KeptValues(env)
    ensures Room(env, CallTokens(w, n), [], 0)
  {
    hide Trim, KeyOf, Find, Fits;
    CallFinds(w, n);
    NameIsFirst(env, n);
    NameHasRoom(env, n);
    KeptCopies(env, n);
    assert Key(env, [Ident(n)], None) == Some(n);
    assert CallRoom(env, [Ident(n)], None, [], 0);
  }

  lemma KeptCopies(env: Env, n: Text)
    requires KeptValues(env)
    ensures ValueIn(env, n).Valid? ==> var tokens := ValueIn(env, n).tokens;
      AppendAll([], tokens) == tokens && FitsAll([], tokens) && Normalize(tokens) == Normal(tokens)
  {
    hide Normalize, Compact, Fits, FitsAll, AppendAll, IsWide, Plain;
    if ValueIn(env, n).Valid? {
      CompactCopies(env[n].tokens);
    }
  }

  // ---- A call with a fallback ----

  function ElseTokens(w: Text, n: Text, fs: Stream): Stream { [Token.Function(w), Ident(n), Symbol(44)] + fs + [Symbol(41)] }

  function Bracketed(fs: Stream): Stream { [Symbol(40)] + fs + [Symbol(41)] }

  /** Tokens without a `var(` that are acceptable as a value, also one bracket deeper, and compact. */
  ghost predicate FallbackOk(fs: Stream) {
    && (forall i :: 0 <= i < |fs| && fs[i].Function? ==> !VarWord(fs[i].value))
    && Normalize(fs) == Normal(fs) && Normalize(Bracketed(fs)) == Normal(Bracketed(fs)) && Compact(fs)
  }

  lemma FallbackFree(fs: Stream)
    requires FallbackOk(fs)
    ensures NoVar(fs) && Balanced(fs)
  {
    hide Normalize;
    NormalIsBalanced(fs);
  }

  lemma {:induction false} WithoutCalls(env: Env, fs: Stream, out: Stream, depth: nat)
    requires NoVar(fs)
    ensures Substitute(env, fs) == Sub(fs, false)
    ensures depth <= DEPTH_MAX && FitsAll(out, fs) ==> Room(env, fs, out, depth)
    decreases |fs|
  {
    hide IsVar, Fits, Append;
    if fs != [] {
      var t, rest := fs[0], fs[1..];
      assert !IsVar(t) && forall i :: 0 <= i < |rest| ==> !IsVar(rest[i]) by {
        assert forall i :: 0 <= i < |rest| ==> rest[i] == fs[i + 1];
      }
      WithoutCalls(env, rest, AppendAll(out, [t]), depth);
      assert [t] + rest == fs;
      if FitsAll(out, fs) {
        FitsApart(out, t, rest);
      }
    }
  }

  lemma FitsApart(out: Stream, t: Token, rest: Stream)
    requires FitsAll(out, [t] + rest)
    ensures FitsAll(out, [t]) && FitsAll(AppendAll(out, [t]), rest)
  {
    hide Fits, Append;
    var all := [t] + rest;
    assert all[..1] == [t] && [t][..1] == [t];
    forall k: nat | 0 < k <= |rest| ensures Fits(AppendAll(AppendAll(out, [t]), rest[..k])) {
      assert all[..k + 1] == [t] + rest[..k];
      AppendAllConcat(out, [t], rest[..k]);
    }
  }

  /** The scan passes matched text. */
  lemma {:induction false} FindPasses(fs: Stream, stack: seq<nat>, rest: Stream)
    requires Open(fs, stack) == Some([]) && Find(rest, 1).Some?
    ensures Find(fs + rest, |stack| + 1).Some? && Find(fs + rest, |stack| + 1).value.close == |fs| + Find(rest, 1).value.close
    decreases |fs|
  {
    if fs == [] {
      assert fs + rest == rest;
    } else {
      var t := fs[0];
      assert (fs + rest)[1..] == fs[1..] + rest && (fs + rest)[0] == t;
      FindPasses(fs[1..], if Closer(t) != 0 then [Closer(t)] + stack else if Closes(t) then stack[1..] else stack, rest);
    }
  }

  lemma ElseFinds(w: Text, n: Text, fs: Stream)
    requires VarWord(w) && Dashed(n) && Balanced(fs)
    ensures var ts := ElseTokens(w, n, fs);
      && IsVar(ts[0]) && ts[1..] == [Ident(n), Symbol(44)] + fs + [Symbol(41)]
      && Find(ts[1..], 1) == Some(Argument(|fs| + 2, Some(1)))
      && ts[1..][..|fs| + 2] == [Ident(n), Symbol(44)] + fs && ts[1..][|fs| + 3..] == []
  {
    var ts, rest := ElseTokens(w, n, fs), fs + [Symbol(41)];
    assert ts[1..] == [Ident(n)] + ([Symbol(44)] + rest);
    FindClose();
    FindPasses(fs, [], [Symbol(41)]);
    hide Find;
    FindPlain(Symbol(44), rest);
    FindPlain(Ident(n), [Symbol(44)] + rest);
  }

  lemma FindClose()
    ensures Find([Symbol(41)], 1) == Some(Argument(0, None))
  {
  }

  lemma FindPlain(t: Token, rest: Stream)
    requires Closer(t) == 0 && !Closes(t) && Find(rest, 1).Some?
    ensures Find([t] + rest, 1) ==
      if t == Symbol(44) then Some(Argument(Find(rest, 1).value.close + 1, Some(0))) else Later(Find(rest, 1))
  {
    var ts := [t] + rest;
    assert ts[0] == t && ts[1..] == rest;
  }

  ghost predicate Alike(a: seq<Frame>, b: seq<Frame>) {
    |a| == |b| && forall i :: 0 <= i < |a| ==> a[i].closer == b[i].closer
  }

  /** Without calls the walk does not mind what is around. */
  lemma {:induction false} WalkAlike(ts: Stream, i: nat, us: Stream, j: nat, a: seq<Frame>, b: seq<Frame>, flag: bool)
    requires i <= |ts| && j <= |us| && ts[i..] == us[j..] && NoVar(ts[i..]) && Alike(a, b)
    ensures var x, y := Walk(ts, i, a, flag), Walk(us, j, b, flag);
      y.Walked? ==> x.Walked? && Alike(x.frames, y.frames) && x.unsupported == y.unsupported
    decreases |ts| - i
  {
    hide IsVar, UnsupportedName;
    if i < |ts| {
      assert ts[i] == ts[i..][0] == us[j..][0] == us[j];
      assert ts[i + 1..] == ts[i..][1..] == us[j..][1..] == us[j + 1..];
      var t := ts[i];
      assert !IsVar(ts[i..][0]);
      var all, later := ts[i..], ts[i + 1..];
      forall k | 0 <= k < |later| ensures !IsVar(later[k]) {
        assert later[k] == all[k + 1];
      }
      var flag' := flag || Refused(ts, i, a);
      assert Refused(us, j, b) == Refused(ts, i, a);
      if Closer(t) != 0 {
        WalkAlike(ts, i + 1, us, j + 1, [Frame(Closer(t), false)] + a, [Frame(Closer(t), false)] + b, flag');
      } else if Closes(t) && b != [] {
        WalkAlike(ts, i + 1, us, j + 1, a[1..], b[1..], flag');
      } else {
        WalkAlike(ts, i + 1, us, j + 1, a, b, flag');
      }
    }
  }

  /** What the walk accepts holds no stop outside brackets. */
  lemma {:induction false} WalkStops(ts: Stream, i: nat, frames: seq<Frame>, flag: bool)
    requires i <= |ts| && Walk(ts, i, frames, flag).Walked?
    ensures !HasStop(ts[i..], |frames|)
    decreases |ts| - i
  {
    if i < |ts| {
      var t, flag' := ts[i], flag || Refused(ts, i, frames);
      assert ts[i..][0] == t && ts[i..][1..] == ts[i + 1..];
      if Closer(t) != 0 {
        WalkStops(ts, i + 1, [Frame(Closer(t), IsVar(t))] + frames, flag');
      } else if Closes(t) {
        WalkStops(ts, i + 1, frames[1..], flag');
      } else {
        WalkStops(ts, i + 1, frames, flag');
      }
    }
  }

  lemma ClosersNone(frames: seq<Frame>)
    ensures Closers(frames) == [] ==> frames == []
  {
  }

  lemma NormalWalk(ts: Stream)
    requires Normalize(ts) == Normal(ts)
    ensures Walk(ts, 0, [], false) == Walked([], false)
  {
    hide Walk, CallAtOk;
    var w := Walk(ts, 0, [], false);
    assert |ts + Closers(w.frames)| == |ts|;
    ClosersNone(w.frames);
  }

  lemma BracketedWalk(fs: Stream)
    requires Normalize(Bracketed(fs)) == Normal(Bracketed(fs))
    ensures Walk(Bracketed(fs), 1, [Frame(41, false)], false) == Walked([], false)
  {
    hide Normalize;
    NormalWalk(Bracketed(fs));
    var us := Bracketed(fs);
    assert us[0] == Symbol(40) && !Refused(us, 0, []);
    assert [Frame(41, false)] + [] == [Frame(41, false)];
    WalkStep(us, 0, [], false);
  }

  lemma ElseWalk(w: Text, n: Text, fs: Stream)
    requires VarWord(w) && Dashed(n) && FallbackOk(fs)
    ensures Walk(ElseTokens(w, n, fs), 0, [], false) == Walked([], false)
  {
    hide Normalize, Walk;
    var ts, us := ElseTokens(w, n, fs), Bracketed(fs);
    var call := [Frame(41, true)];
    assert ts[0] == Token.Function(w) && ts[1] == Ident(n) && ts[2] == Symbol(44);
    assert call + [] == call;
    assert !Refused(ts, 0, []) && !Refused(ts, 1, call) && !Refused(ts, 2, call);
    WalkStep(ts, 0, [], false);
    WalkStep(ts, 1, call, false);
    WalkStep(ts, 2, call, false);
    FallbackFree(fs);
    BracketedWalk(fs);
    assert ts[3..] == fs + [Symbol(41)] == us[1..];
    assert NoVar(ts[3..]) by {
      assert forall i :: 0 <= i < |fs| ==> (fs + [Symbol(41)])[i] == fs[i];
    }
    WalkAlike(ts, 3, us, 1, call, [Frame(41, false)], false);
    assert Walk(ts, 0, [], false) == Walk(ts, 3, call, false);
  }

  lemma ElseIsNormal(w: Text, n: Text, fs: Stream)
    requires VarWord(w) && Dashed(n) && FallbackOk(fs)
    ensures Normalize(ElseTokens(w, n, fs)) == Normal(ElseTokens(w, n, fs))
  {
    hide Walk, Find, IsVar;
    var ts := ElseTokens(w, n, fs);
    FallbackFree(fs);
    ElseWalk(w, n, fs);
    ElseFinds(w, n, fs);
    ElseArguments(n, fs);
    assert ts + [] == ts;
    forall i | 0 <= i < |ts| ensures CallAtOk(ts, i) {
      if i > 0 {
        ElseSingle(w, n, fs, i);
      }
    }
  }

  lemma ElseSingle(w: Text, n: Text, fs: Stream, i: nat)
    requires NoVar(fs) && 0 < i < |ElseTokens(w, n, fs)|
    ensures !IsVar(ElseTokens(w, n, fs)[i])
  {
    var ts := ElseTokens(w, n, fs);
    if 3 <= i < |fs| + 3 {
      assert ts[i] == fs[i - 3];
    }
  }

  lemma ElseArguments(n: Text, fs: Stream)
    requires Dashed(n) && FallbackOk(fs)
    ensures var inner := [Ident(n), Symbol(44)] + fs;
      FirstPart(inner, Some(1)) == [Ident(n)] && Fallback(inner, Some(1)) == fs && CallOk(inner, Some(1))
  {
    hide Normalize;
    NameIsFirst(map[], n);
    NormalWalk(fs);
    assert fs[0..] == fs;
    WalkStops(fs, 0, [], false);
  }

  lemma ElseSubstitutes(env: Env, w: Text, n: Text, fs: Stream)
    requires VarWord(w) && Dashed(n) && FallbackOk(fs)
    ensures Substitute(env, ElseTokens(w, n, fs)) ==
      match ValueIn(env, n) case Valid(tokens) => Sub(tokens, false) case Invalid => Sub(fs, false)
  {
    hide Trim, KeyOf, Find, CallOk, FirstPart, Fallback;
    FallbackFree(fs);
    ElseFinds(w, n, fs);
    ElseArguments(n, fs);
    NameIsFirst(env, n);
    WithoutCalls(env, fs, [], 0);
    var call := SubstituteCall(env, [Ident(n), Symbol(44)] + fs, Some(1));
    assert call.out + [] == call.out;
  }

  lemma ElseHasRoom(env: Env, w: Text, n: Text, fs: Stream)
    requires VarWord(w) && Dashed(n) && |n| <= INPUT_MAX && KeptValues(env) && FallbackOk(fs)
    ensures Room(env, ElseTokens(w, n, fs), [], 0)
  {
    hide Trim, KeyOf, Find, CallOk, FirstPart, Fallback, Fits;
    FallbackFree(fs);
    ElseFinds(w, n, fs);
    ElseArguments(n, fs);
    NameIsFirst(env, n);
    NameHasRoom(env, n);
    KeptCopies(env, n);
    CompactCopies(fs);
    WithoutCalls(env, fs, [], 1);
    var inner := [Ident(n), Symbol(44)] + fs;
    assert Key(env, inner, Some(1)) == Some(n);
    assert CallRoom(env, inner, Some(1), [], 0);
  }

  // ---- From text to answer ----

  /** The value of a name in a table, or invalidity. */
  ghost predicate HasValue(ps: Table, n: Text, tokens: Stream) { exists i :: 0 <= i < |ps| && ps[i].name == n && ps[i].value == Valid(tokens) }

  ghost predicate NoValue(ps: Table, n: Text) { forall i :: 0 <= i < |ps| && ps[i].name == n ==> ps[i].value.Invalid? }

  /** The text is a call of `n`: it gives the value of `n`, or is invalid without one. */
  ghost predicate AnswersCall(ps: Table, text: Text, status: Status, invalid: bool, out: Stream) {
    forall w, n :: VarWord(w) && Dashed(n) && text == VarCall(w, n) && |text| <= INPUT_MAX ==>
      GivesValue(ps, n, status, invalid, out)
  }

  ghost predicate GivesValue(ps: Table, n: Text, status: Status, invalid: bool, out: Stream) {
    status == Done && invalid == NoValue(ps, n) && (forall tokens :: HasValue(ps, n, tokens) ==> !invalid && out == tokens)
  }

  ghost predicate GivesElse(ps: Table, n: Text, fs: Stream, status: Status, invalid: bool, out: Stream) {
    status == Done && !invalid && (forall tokens :: HasValue(ps, n, tokens) ==> out == tokens) && (NoValue(ps, n) ==> out == fs)
  }

  /** Likewise with a fallback, which takes the place of a missing or invalid value. */
  ghost predicate AnswersElse(ps: Table, text: Text, status: Status, invalid: bool, out: Stream) {
    forall w, n, f, fs | VarWord(w) && Dashed(n) && text == VarElse(w, n, f) && ReadsFallback(f, fs) && |text| <= INPUT_MAX ::
      GivesElse(ps, n, fs, status, invalid, out)
  }

  /** In front of the closing parenthesis the text reads as these tokens. */
  ghost predicate ReadsFallback(f: Text, fs: Stream) {
    Tokens(Preprocess(f + [41])) == fs + [Symbol(41)] && FallbackOk(fs) && |fs| + 4 <= TOKEN_MAX
  }
}
