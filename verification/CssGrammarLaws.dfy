/**
 Which values are refused and why, and what trimming, merging and nesting come to, on tokens
 written out.
 */
module CssGrammarLaws {
  import opened Options
  import opened CssTokens
  import opened CssVarRead
  import opened CssBrackets
  import opened CssSubstitution
  import opened CssNormalize
  import opened CssRoom
  import opened CssVarText

  // ---- White space ----

  predicate Spaces(ts: Stream) { forall i :: 0 <= i < |ts| ==> ts[i].Whitespace? }

  predicate Tight(ts: Stream) { ts != [] && !ts[0].Whitespace? && !ts[|ts| - 1].Whitespace? }

  lemma {:induction false} SkipIs(w: Stream, ts: Stream)
    requires Spaces(w) && (ts == [] || !ts[0].Whitespace?)
    ensures SkipSpace(w + ts) == |w|
  {
    if w == [] {
      assert w + ts == ts;
    } else {
      SkipIs(w[1..], ts);
      assert (w + ts)[1..] == w[1..] + ts;
    }
  }

  lemma {:induction false} EndIs(ts: Stream, w: Stream)
    requires Spaces(w) && (ts == [] || !ts[|ts| - 1].Whitespace?)
    ensures TrimEnd(ts + w) == |ts|
    decreases |w|
  {
    if w == [] {
      assert ts + w == ts;
    } else {
      var front := w[..|w| - 1];
      EndIs(ts, front);
      assert (ts + w)[..|ts + w| - 1] == ts + front;
    }
  }

  /** Trimming takes off the white space at both ends and nothing else. */
  lemma TrimIs(w: Stream, ts: Stream, x: Stream)
    requires Spaces(w) && Spaces(x) && Tight(ts)
    ensures Trim(w + ts + x) == ts && Trim(w) == []
  {
    SkipIs(w, ts + x);
    assert w + ts + x == w + (ts + x) && (w + (ts + x))[|w|..] == ts + x;
    EndIs(ts, x);
    assert (ts + x)[..|ts|] == ts;
    SkipIs(w, []);
    assert w + [] == w && w[|w|..] == [];
  }

  /** The characters of white space one by one, every other token whole. */
  datatype Atom = Blank(c: nat) | Whole(t: Token)

  function Chars(v: Text): seq<Atom> { seq(|v|, i requires 0 <= i < |v| => Blank(v[i])) }

  function Atoms(ts: Stream): seq<Atom> {
    if ts == [] then []
    else Atoms(ts[..|ts| - 1]) + if ts[|ts| - 1].Whitespace? then Chars(ts[|ts| - 1].value) else [Whole(ts[|ts| - 1])]
  }

  lemma CharsConcat(a: Text, b: Text)
    ensures Chars(a + b) == Chars(a) + Chars(b)
  {
  }

  lemma AppendAtoms(out: Stream, t: Token)
    ensures Atoms(Append(out, t)) == Atoms(out) + Atoms([t])
  {
    assert [t][..0] == [] && Atoms([]) == [];
    if t.Whitespace? && out != [] && out[|out| - 1].Whitespace? {
      var front, last := out[..|out| - 1], out[|out| - 1];
      var joined := Whitespace(last.value + t.value);
      assert (front + [joined])[..|front|] == front;
      CharsConcat(last.value, t.value);
    } else {
      assert (out + [t])[..|out|] == out;
    }
  }

  lemma {:induction false} AtomsConcat(a: Stream, b: Stream)
    ensures Atoms(a + b) == Atoms(a) + Atoms(b)
    decreases |b|
  {
    if b == [] {
      assert a + b == a;
    } else {
      AtomsConcat(a, b[..|b| - 1]);
      assert (a + b)[..|a + b| - 1] == a + b[..|b| - 1];
    }
  }

  /** Appending loses, adds and reorders nothing, and leaves no two runs of white space side by side. */
  lemma {:induction false} AppendedAtoms(out: Stream, ts: Stream)
    ensures Atoms(AppendAll(out, ts)) == Atoms(out) + Atoms(ts)
    ensures Merged(out) ==> Merged(AppendAll(out, ts))
    decreases |ts|
  {
    hide Atoms, Append, Merged;
    if Merged(out) {
      AppendAllMerges(out, ts);
    }
    if ts == [] {
      assert Atoms([]) == [] by { NoAtoms(); }
    } else {
      AppendAtoms(out, ts[0]);
      AppendedAtoms(Append(out, ts[0]), ts[1..]);
      assert ts == [ts[0]] + ts[1..];
      AtomsConcat([ts[0]], ts[1..]);
    }
  }

  lemma NoAtoms()
    ensures Atoms([]) == []
  {
  }

  // ---- Brackets ----

  function Opener(k: nat): Token { if k == 0 then Symbol(40) else if k == 1 then Symbol(91) else Symbol(123) }

  function Shutter(k: nat): Token { if k == 0 then Symbol(41) else if k == 1 then Symbol(93) else Symbol(125) }

  /** Brackets must match; a stream may leave them open, then they are closed; nothing may close one that is not open. */
  lemma BracketRule(j: nat, k: nat)
    requires j < 3 && k < 3
    ensures Normalize([Opener(j)]) == Normal([Opener(j), Shutter(j)])
    ensures Normalize([Opener(j), Shutter(k)]) == (if j == k then Normal([Opener(j), Shutter(k)]) else Rejected)
    ensures Normalize([Shutter(k)]) == Rejected
  {
    var o, f := Opener(j), [Frame(Closer(Opener(j)), false)];
    assert f + [] == f && f[1..] == [];
    hide Walk, Refused;
    assert !IsVar(o);
    WalkStep([o], 0, [], false);
    WalkEnds([o], f, false);
    NotRefused([o], 0, []);
    assert Closers(f) == [Shutter(j)] by { assert Closers([]) == []; }
    assert [o] + [Shutter(j)] == [o, Shutter(j)];
    WalkStep([o, Shutter(k)], 0, [], false);
    NotRefused([o, Shutter(k)], 0, []);
    WalkStep([o, Shutter(k)], 1, f, false);
    NotRefused([o, Shutter(k)], 1, f);
    WalkEnds([o, Shutter(k)], [], false);
    assert [o, Shutter(k)] + [] == [o, Shutter(k)];
    WalkStep([Shutter(k)], 0, [], false);
  }

  lemma NotRefused(ts: Stream, i: nat, frames: seq<Frame>)
    requires i < |ts| && !ts[i].Function?
    ensures !Refused(ts, i, frames)
  {
  }

  function Repeat(t: Token, n: nat): (r: Stream)
    ensures |r| == n && forall i :: 0 <= i < n ==> r[i] == t
  {
    if n == 0 then [] else [t] + Repeat(t, n - 1)
  }

  function Frames(n: nat): (r: seq<Frame>)
    ensures |r| == n && forall i :: 0 <= i < n ==> r[i] == Frame(41, false)
  {
    if n == 0 then [] else [Frame(41, false)] + Frames(n - 1)
  }

  lemma {:induction false} WalkDeep(ts: Stream, i: nat)
    requires i <= |ts| && i <= 64 && forall k :: 0 <= k < |ts| ==> ts[k] == Symbol(40)
    ensures Walk(ts, i, Frames(i), false) == if |ts| > 64 then WalkTooDeep else Walked(Frames(|ts|), false)
    decreases |ts| - i
  {
    hide Refused;
    if i < |ts| {
      NotRefused(ts, i, Frames(i));
      if i < 64 {
        assert [Frame(41, false)] + Frames(i) == Frames(i + 1);
        WalkDeep(ts, i + 1);
      }
    }
  }

  lemma {:induction false} ClosersDeep(n: nat)
    ensures Closers(Frames(n)) == Repeat(Symbol(41), n)
  {
    if n > 0 {
      ClosersDeep(n - 1);
      assert Frames(n)[1..] == Frames(n - 1);
    }
  }

  /** Sixty-four open brackets are closed; one more is too many. */
  lemma DepthRule(n: nat)
    ensures n > 64 ==> Normalize(Repeat(Symbol(40), n)) == TooDeep
    ensures n <= 64 ==> Normalize(Repeat(Symbol(40), n)) == Normal(Repeat(Symbol(40), n) + Repeat(Symbol(41), n))
  {
    var ts := Repeat(Symbol(40), n);
    WalkDeep(ts, 0);
    if n <= 64 {
      ClosersDeep(n);
      hide Walk;
      var whole := ts + Repeat(Symbol(41), n);
      forall i | 0 <= i < |whole| ensures CallAtOk(whole, i) {
        assert !IsVar(whole[i]);
      }
    }
  }

  // ---- Functions and arguments ----

  /** The functions that are refused as unsupported, besides those with a custom name. */
  predicate RefusedName(n: Text) {
    || Spells(n, "attr") || Spells(n, "env") || Spells(n, "if") || Spells(n, "inherit") || Spells(n, "first-valid")
    || Spells(n, "random") || Spells(n, "ident") || Spells(n, "random-item")
  }

  lemma WordIff(n: Text, word: string)
    requires NamePoints(n) && forall i :: 0 <= i < |word| ==> 'a' <= word[i] <= 'z' || word[i] == '-'
    ensures IsWord(n, word) <==> Spells(n, word)
  {
    assert forall i :: 0 <= i < |n| ==> NamePoint(n[i]);
    if Spells(n, word) {
      assert forall i :: 0 <= i < |n| ==> Lower(n[i]) == word[i] as int;
    }
  }

  lemma RefusedIff(n: Text)
    requires NamePoints(n)
    ensures UnsupportedName(n) <==> RefusedName(n) || (|n| > 2 && n[0] == '-' as int && n[1] == '-' as int)
  {
    hide IsWord, Spells;
    WordIff(n, "attr");
    WordIff(n, "env");
    WordIff(n, "if");
    WordIff(n, "inherit");
    WordIff(n, "first-valid");
    WordIff(n, "random");
    WordIff(n, "ident");
    WordIff(n, "random-item");
  }

  /** A function without arguments: refused by name, refused for want of an argument if it is `var`, else accepted. */
  lemma FunctionRule(n: Text)
    requires NamePoints(n)
    ensures var ts := [Token.Function(n), Symbol(41)];
      Normalize(ts) == if VarWord(n) then Rejected
                       else if RefusedName(n) || (|n| > 2 && n[0] == '-' as int && n[1] == '-' as int) then Unsupported
                       else Normal(ts)
  {
    var ts, f := [Token.Function(n), Symbol(41)], [Frame(41, IsVar(Token.Function(n)))];
    assert f + [] == f && f[1..] == [];
    RefusedIff(n);
    hide Walk, UnsupportedName, RefusedName;
    assert IsVar(ts[0]) <==> VarWord(n);
    assert Refused(ts, 0, []) <==> UnsupportedName(n);
    NotRefused(ts, 1, f);
    WalkStep(ts, 0, [], false);
    WalkStep(ts, 1, f, UnsupportedName(n));
    WalkEnds(ts, [], UnsupportedName(n));
    assert ts + [] == ts;
    CallWithout(ts);
  }

  lemma CallWithout(ts: Stream)
    requires |ts| == 2 && ts[0].Function? && ts[1] == Symbol(41)
    ensures CallsOk(ts) <==> !IsVar(ts[0])
  {
    assert ts[1..] == [Symbol(41)] && [Symbol(41)][..0] == [];
    assert CallAtOk(ts, 1);
    assert CallAtOk(ts, 0) <==> !IsVar(ts[0]);
  }

  /** Bad strings and URLs, and semicolons and exclamation marks outside brackets, are refused. */
  lemma BadRule(t: Token)
    requires t == BadString || t == BadUrl || t == Symbol(59) || t == Symbol(33)
    ensures Normalize([t]) == Rejected
  {
    WalkStep([t], 0, [], false);
    hide Walk;
  }

  /** In a call neither argument may hold one of these marks outside brackets; inside brackets they do no harm. */
  lemma StopRule(n: Text, mark: nat)
    requires Dashed(n) && (mark == 59 || mark == 33)
    ensures !ArgumentOk([Ident(n), Symbol(mark)], true) && !ArgumentOk([Symbol(mark)], false)
    ensures ArgumentOk([Symbol(40), Symbol(mark), Symbol(41)], false) && ArgumentOk([], false) && !ArgumentOk([], true)
  {
    assert [Ident(n), Symbol(mark)][1..] == [Symbol(mark)];
    assert HasStop([Symbol(mark)], 0) && HasStop([Ident(n), Symbol(mark)], 0) == HasStop([Symbol(mark)], 0);
    var ts := [Symbol(40), Symbol(mark), Symbol(41)];
    assert ts[1..] == [Symbol(mark), Symbol(41)] && ts[1..][1..] == [Symbol(41)] && ts[1..][1..][1..] == [];
    assert HasStop(ts, 0) == HasStop([Symbol(mark), Symbol(41)], 1) == HasStop([Symbol(41)], 1) == HasStop([], 0);
  }

  /** How many code points the pool holds for a token. */
  function Units(t: Token): nat {
    match t
    case Number(text, _) => |text|
    case Percentage(text, _) => |text|
    case Dimension(text, _, unit) => |text + unit|
    case BadString => 0
    case BadUrl => 0
    case Cdo => 0
    case Cdc => 0
    case Symbol(_) => 0
    case _ => |t.value|
  }

  function AllUnits(ts: Stream): nat { if ts == [] then 0 else Units(ts[0]) + AllUnits(ts[1..]) }

  lemma {:induction false} PoolSnoc(ts: Stream, t: Token)
    ensures AllUnits(ts + [t]) == AllUnits(ts) + Units(t)
  {
    if ts == [] {
      assert ts + [t] == [t] && [t][1..] == [];
    } else {
      assert (ts + [t])[1..] == ts[1..] + [t];
      PoolSnoc(ts[1..], t);
    }
  }

  lemma {:induction false} PoolIs(ts: Stream)
    ensures PoolOf(ts) == AllUnits(ts)
    decreases |ts|
  {
    if ts != [] {
      PoolIs(ts[..|ts| - 1]);
      PoolSnoc(ts[..|ts| - 1], ts[|ts| - 1]);
      assert ts == ts[..|ts| - 1] + [ts[|ts| - 1]];
    }
  }

  /** A stream holds at most 4096 tokens and 131072 code points. */
  lemma FitsIs(ts: Stream)
    ensures Fits(ts) <==> |ts| <= 4096 && AllUnits(ts) <= 131072
  {
    PoolIs(ts);
  }

  // ---- What is not supported ----

  predicate Opens(t: Token) { t.Function? || t == Symbol(40) || t == Symbol(91) || t == Symbol(123) }

  predicate Shuts(t: Token) { t == Symbol(41) || t == Symbol(93) || t == Symbol(125) }

  /** Brackets opened less brackets closed from `j` up to, not including, `k`. */
  function Level(ts: Stream, j: nat, k: nat): int
    requires k <= |ts|
  {
    if k <= j then 0 else Level(ts, j, k - 1) + (if Opens(ts[k - 1]) then 1 else if Shuts(ts[k - 1]) then -1 else 0)
  }

  /** The bracket at `j` is still open in front of token `i`. */
  predicate OpenThrough(ts: Stream, j: nat, i: nat)
    requires i <= |ts|
  {
    j < i && Opens(ts[j]) && forall k :: j < k <= i ==> Level(ts, j, k) > 0
  }

  /** Token `i` opens a refused function, or a `var(` that three dots spread inside another `var(`. */
  ghost predicate RefusedAt(ts: Stream, i: nat)
    requires i < |ts|
  {
    && ts[i].Function?
    && (UnsupportedName(ts[i].value)
        || (VarWord(ts[i].value) && i >= 3 && (forall k :: i - 3 <= k < i ==> ts[k] == Symbol('.' as nat))
            && exists j :: 0 <= j < i && OpenThrough(ts, j, i) && ts[j].Function? && VarWord(ts[j].value)))
  }

  /** `ps` holds where each open bracket stands, innermost first. */
  ghost predicate Stands(ts: Stream, i: nat, frames: seq<Frame>, ps: seq<nat>) {
    && i <= |ts| && |ps| == |frames|
    && (forall q :: 0 <= q < |ps| ==> OpenThrough(ts, ps[q], i) && Level(ts, ps[q], i) == q + 1 && (frames[q].call <==> IsVar(ts[ps[q]])))
    && (forall j :: 0 <= j < i && OpenThrough(ts, j, i) ==> j in ps)
  }

  lemma OneOn(ts: Stream, i: nat, j: nat)
    requires i < |ts| && j < i
    ensures OpenThrough(ts, j, i + 1) <==> OpenThrough(ts, j, i) && Level(ts, j, i + 1) > 0
    ensures Level(ts, j, i + 1) == Level(ts, j, i) + (if Opens(ts[i]) then 1 else if Shuts(ts[i]) then -1 else 0)
  {
  }

  lemma OpensHere(ts: Stream, i: nat)
    requires i < |ts|
    ensures OpenThrough(ts, i, i + 1) <==> Opens(ts[i])
    ensures Opens(ts[i]) ==> Level(ts, i, i + 1) == 1
  {
    assert Level(ts, i, i) == 0;
  }

  lemma StandsOpen(ts: Stream, i: nat, frames: seq<Frame>, ps: seq<nat>)
    requires i < |ts| && Stands(ts, i, frames, ps) && Opens(ts[i])
    ensures Stands(ts, i + 1, [Frame(Closer(ts[i]), IsVar(ts[i]))] + frames, [i] + ps)
  {
    OpensHere(ts, i);
    forall j | 0 <= j < i ensures OpenThrough(ts, j, i + 1) <==> OpenThrough(ts, j, i) && Level(ts, j, i + 1) > 0 {
      OneOn(ts, i, j);
    }
    forall q | 0 <= q < |ps| ensures OpenThrough(ts, ps[q], i + 1) && Level(ts, ps[q], i + 1) == q + 2 {
      OneOn(ts, i, ps[q]);
    }
    hide Level, OpenThrough, IsVar;
  }

  lemma StandsShut(ts: Stream, i: nat, frames: seq<Frame>, ps: seq<nat>)
    requires i < |ts| && Stands(ts, i, frames, ps) && Shuts(ts[i]) && frames != []
    ensures Stands(ts, i + 1, frames[1..], ps[1..])
  {
    OpensHere(ts, i);
    forall q | 0 <= q < |ps| ensures Level(ts, ps[q], i + 1) == q && (q > 0 ==> OpenThrough(ts, ps[q], i + 1)) {
      OneOn(ts, i, ps[q]);
    }
    forall j | 0 <= j < i + 1 && OpenThrough(ts, j, i + 1) ensures j in ps[1..] {
      if j < i {
        OneOn(ts, i, j);
        var q :| 0 <= q < |ps| && ps[q] == j;
        assert ps[1..][q - 1] == j;
      }
    }
    hide Level, OpenThrough, IsVar;
  }

  lemma StandsStill(ts: Stream, i: nat, frames: seq<Frame>, ps: seq<nat>)
    requires i < |ts| && Stands(ts, i, frames, ps) && !Opens(ts[i]) && !Shuts(ts[i])
    ensures Stands(ts, i + 1, frames, ps)
  {
    OpensHere(ts, i);
    forall q | 0 <= q < |ps| ensures OpenThrough(ts, ps[q], i + 1) && Level(ts, ps[q], i + 1) == q + 1 {
      OneOn(ts, i, ps[q]);
    }
    forall j | 0 <= j < i + 1 && OpenThrough(ts, j, i + 1) ensures j in ps {
      if j < i {
        OneOn(ts, i, j);
      }
    }
    hide Level, OpenThrough, IsVar;
  }

  lemma {:induction false} WalkRefuses(ts: Stream, i: nat, frames: seq<Frame>, unsupported: bool, ps: seq<nat>)
    requires Stands(ts, i, frames, ps) && Walk(ts, i, frames, unsupported).Walked?
    ensures Walk(ts, i, frames, unsupported).unsupported <==> unsupported || exists k :: i <= k < |ts| && RefusedAt(ts, k)
    decreases |ts| - i
  {
    hide Refused, RefusedAt, Stands, IsVar;
    StandsSize(ts, i, frames, ps);
    if i == |ts| {
      assert Walk(ts, i, frames, unsupported) == Walked(frames, unsupported);
    } else {
      hide Walk;
      RefusedIs(ts, i, frames, ps);
      WalkStep(ts, i, frames, unsupported);
      var t, flag := ts[i], unsupported || Refused(ts, i, frames);
      assert (exists k :: i <= k < |ts| && RefusedAt(ts, k)) <==> RefusedAt(ts, i) || exists k :: i + 1 <= k < |ts| && RefusedAt(ts, k);
      if Opens(t) {
        assert Walk(ts, i, frames, unsupported) == Walk(ts, i + 1, [Frame(Closer(t), IsVar(t))] + frames, flag);
        StandsOpen(ts, i, frames, ps);
        WalkRefuses(ts, i + 1, [Frame(Closer(t), IsVar(t))] + frames, flag, [i] + ps);
      } else if Shuts(t) {
        assert frames != [] && Walk(ts, i, frames, unsupported) == Walk(ts, i + 1, frames[1..], flag);
        StandsShut(ts, i, frames, ps);
        WalkRefuses(ts, i + 1, frames[1..], flag, ps[1..]);
      } else {
        assert Walk(ts, i, frames, unsupported) == Walk(ts, i + 1, frames, flag);
        StandsStill(ts, i, frames, ps);
        WalkRefuses(ts, i + 1, frames, flag, ps);
      }
    }
  }

  lemma StandsSize(ts: Stream, i: nat, frames: seq<Frame>, ps: seq<nat>)
    requires Stands(ts, i, frames, ps)
    ensures i <= |ts| && |ps| == |frames|
  {
  }

  lemma VarIsVarWord(t: Token)
    ensures IsVar(t) <==> t.Function? && VarWord(t.value)
  {
  }

  lemma InCallIff(ts: Stream, i: nat, frames: seq<Frame>, ps: seq<nat>)
    requires i < |ts| && Stands(ts, i, frames, ps)
    ensures InCall(frames) <==> exists j :: 0 <= j < i && OpenThrough(ts, j, i) && ts[j].Function? && VarWord(ts[j].value)
  {
    forall j | 0 <= j < |ts| ensures IsVar(ts[j]) <==> ts[j].Function? && VarWord(ts[j].value) {
      VarIsVarWord(ts[j]);
    }
    forall q | 0 <= q < |ps| ensures 0 <= ps[q] < i && OpenThrough(ts, ps[q], i) && (frames[q].call <==> IsVar(ts[ps[q]])) {
    }
    hide IsVar, VarWord, Level, OpenThrough;
    if j :| 0 <= j < i && OpenThrough(ts, j, i) && IsVar(ts[j]) {
      var q :| 0 <= q < |ps| && ps[q] == j;
      assert frames[q].call;
    }
  }

  lemma RefusedIs(ts: Stream, i: nat, frames: seq<Frame>, ps: seq<nat>)
    requires i < |ts| && Stands(ts, i, frames, ps)
    ensures Refused(ts, i, frames) <==> RefusedAt(ts, i)
  {
    InCallIff(ts, i, frames, ps);
    VarIsVarWord(ts[i]);
    hide UnsupportedName, OpenThrough, IsVar, VarWord, InCall;
  }

  /**
   A value whose brackets and arguments are in order is unsupported exactly if it names a refused
   function, or spreads a call by three dots inside another.
   */
  lemma UnsupportedIff(ts: Stream)
    requires Normalize(ts).Normal? || Normalize(ts).Unsupported?
    ensures Normalize(ts).Unsupported? <==> exists k :: 0 <= k < |ts| && RefusedAt(ts, k)
  {
    assert Stands(ts, 0, [], []);
    WalkRefuses(ts, 0, [], false, []);
    hide Walk;
  }

  // ---- Nested fallbacks ----

  /** Without a value the fallback is substituted in turn, calls and all. */
  lemma FallbackSubstitutes(env: Env, w: Text, n: Text, fs: Stream)
    requires VarWord(w) && Dashed(n) && Balanced(fs) && !HasStop(fs, 0)
    ensures Substitute(env, ElseTokens(w, n, fs)) ==
      match ValueIn(env, n) case Valid(tokens) => Sub(tokens, false) case Invalid => Substitute(env, fs)
  {
    hide Trim, KeyOf, Find, FirstPart, Fallback;
    ElseFinds(w, n, fs);
    NameIsFirst(env, n);
    var inner := [Ident(n), Symbol(44)] + fs;
    assert FirstPart(inner, Some(1)) == [Ident(n)] && Fallback(inner, Some(1)) == fs by { PartsAre(n, fs); }
    var call := SubstituteCall(env, inner, Some(1));
    assert call.out + [] == call.out;
  }

  lemma PartsAre(n: Text, fs: Stream)
    ensures var inner := [Ident(n), Symbol(44)] + fs;
      FirstPart(inner, Some(1)) == [Ident(n)] && Fallback(inner, Some(1)) == fs
  {
  }
}
