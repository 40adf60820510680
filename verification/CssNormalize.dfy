/**
 The check every specified or substituted value passes: brackets are matched and completed,
 the grammar of every call holds, and functions that are not implemented are refused.
 */
module CssNormalize {
  import opened Options
  import opened CssTokens
  import opened CssBrackets
  import opened CssSubstitution

  const DEPTH_MAX := 64

  datatype Normal = Normal(tokens: Stream) | Rejected | TooDeep | Unsupported

  /** A word in ASCII, compared without regard to case. */
  predicate IsWord(v: Text, word: string) {
    |v| == |word| && forall i :: 0 <= i < |v| ==> Lower(v[i]) == word[i] as int
  }

  predicate UnsupportedName(v: Text) {
    || IsCustom(v) || IsWord(v, "attr") || IsWord(v, "env") || IsWord(v, "if") || IsWord(v, "inherit")
    || IsWord(v, "first-valid") || IsWord(v, "random") || IsWord(v, "ident") || IsWord(v, "random-item")
  }

  /** An open bracket: what closes it, and whether it is a `var(` call. */
  datatype Frame = Frame(closer: nat, call: bool)

  predicate InCall(frames: seq<Frame>) { exists i :: 0 <= i < |frames| && frames[i].call }

  predicate SpreadBefore(ts: Stream, i: nat)
    requires i <= |ts|
  {
    i >= 3 && ts[i - 3] == Symbol(46) && ts[i - 2] == Symbol(46) && ts[i - 1] == Symbol(46)
  }

  datatype Walked = Walked(frames: seq<Frame>, unsupported: bool) | WalkRejected | WalkTooDeep

  predicate Refused(ts: Stream, i: nat, frames: seq<Frame>)
    requires i < |ts|
  {
    (ts[i].Function? && UnsupportedName(ts[i].value)) || (InCall(frames) && IsVar(ts[i]) && SpreadBefore(ts, i))
  }

  predicate IsBadToken(t: Token) { t.BadString? || t.BadUrl? }

  function Walk(ts: Stream, i: nat, frames: seq<Frame>, unsupported: bool): Walked
    requires i <= |ts|
    decreases |ts| - i
  {
    if i == |ts| then Walked(frames, unsupported)
    else
      var t, flag := ts[i], unsupported || Refused(ts, i, frames);
      if IsBadToken(t) then WalkRejected
      else if Closer(t) != 0 then
        if |frames| == DEPTH_MAX then WalkTooDeep else Walk(ts, i + 1, [Frame(Closer(t), IsVar(t))] + frames, flag)
      else if Closes(t) then
        if frames == [] || frames[0].closer != t.delim then WalkRejected else Walk(ts, i + 1, frames[1..], flag)
      else if frames == [] && IsStop(t) then WalkRejected
      else Walk(ts, i + 1, frames, flag)
  }

  /** The tokens that close the open brackets, innermost first. */
  function Closers(frames: seq<Frame>): Stream {
    if frames == [] then [] else [Symbol(frames[0].closer)] + Closers(frames[1..])
  }

  predicate CallAtOk(ts: Stream, i: nat)
    requires i < |ts|
  {
    IsVar(ts[i]) ==>
      var a := Find(ts[i + 1..], 1);
      a.Some? && a.value.close <= |ts[i + 1..]| && CallOk(ts[i + 1..][..a.value.close], a.value.comma)
  }

  predicate CallsOk(ts: Stream) { forall i :: 0 <= i < |ts| ==> CallAtOk(ts, i) }

  function Normalize(ts: Stream): Normal {
    match Walk(ts, 0, [], false)
    case WalkRejected => Rejected
    case WalkTooDeep => TooDeep
    case Walked(frames, unsupported) =>
      var whole := ts + Closers(frames);
      if frames != [] && |whole| > TOKEN_MAX then TooDeep
      else if !CallsOk(whole) then Rejected
      else if unsupported then Unsupported
      else Normal(whole)
  }

  function Kinds(frames: seq<Frame>): (r: seq<nat>)
    ensures |r| == |frames|
  {
    if frames == [] then [] else [frames[0].closer] + Kinds(frames[1..])
  }

  predicate Closing(frames: seq<Frame>) {
    forall i :: 0 <= i < |frames| ==> frames[i].closer == 41 || frames[i].closer == 93 || frames[i].closer == 125
  }

  /** The walk's frames are exactly the brackets left open. */
  lemma {:induction false} WalkOpens(ts: Stream, i: nat, frames: seq<Frame>, unsupported: bool)
    requires i <= |ts| && Closing(frames) && Walk(ts, i, frames, unsupported).Walked?
    ensures var end := Walk(ts, i, frames, unsupported).frames;
      Closing(end) && Open(ts[i..], Kinds(frames)) == Some(Kinds(end))
    decreases |ts| - i
  {
    if i < |ts| {
      var t, flag := ts[i], unsupported || Refused(ts, i, frames);
      assert ts[i..][0] == t && ts[i..][1..] == ts[i + 1..];
      if Closer(t) != 0 {
        var f := Frame(Closer(t), IsVar(t));
        assert ([f] + frames)[1..] == frames;
        WalkOpens(ts, i + 1, [f] + frames, flag);
      } else if Closes(t) {
        WalkOpens(ts, i + 1, frames[1..], flag);
        assert Kinds(frames)[1..] == Kinds(frames[1..]);
      } else {
        WalkOpens(ts, i + 1, frames, flag);
      }
    }
  }

  lemma {:induction false} ClosersClose(frames: seq<Frame>)
    requires Closing(frames)
    ensures Open(Closers(frames), Kinds(frames)) == Some([])
  {
    if frames != [] {
      ClosersClose(frames[1..]);
      assert Closers(frames)[1..] == Closers(frames[1..]) && Kinds(frames)[1..] == Kinds(frames[1..]);
    }
  }

  /** A normalized stream is balanced, and every call in it has proper arguments. */
  lemma NormalIsBalanced(ts: Stream)
    requires Normalize(ts).Normal?
    ensures Balanced(Normalize(ts).tokens) && CallsOk(Normalize(ts).tokens) && ts <= Normalize(ts).tokens
    ensures Balanced(ts) ==> Normalize(ts).tokens == ts
  {
    hide Walk, CallAtOk;
    var frames := Walk(ts, 0, [], false).frames;
    assert ts[0..] == ts;
    WalkOpens(ts, 0, [], false);
    ClosersClose(frames);
    OpenConcat(ts, Closers(frames), []);
    if Balanced(ts) {
      assert frames == [];
      assert ts + [] == ts;
    }
  }

  // ---- The loops ----

  method NormalizeStream(ts: Stream) returns (r: Normal)
    ensures r == Normalize(ts)
  {
    hide Walk, CallAtOk, Find, Closers;
    var frames: seq<Frame>, unsupported := [], false;
    for i: nat := 0 to |ts|
      invariant Walk(ts, 0, [], false) == Walk(ts, i, frames, unsupported)
    {
      var t := ts[i];
      WalkStep(ts, i, frames, unsupported);
      if IsBadToken(t) {
        return Rejected;
      }
      if Refused(ts, i, frames) {
        unsupported := true;
      }
      if Closer(t) != 0 {
        if |frames| == DEPTH_MAX {
          return TooDeep;
        }
        frames := [Frame(Closer(t), IsVar(t))] + frames;
      } else if Closes(t) {
        if frames == [] || frames[0].closer != t.delim {
          return Rejected;
        }
        frames := frames[1..];
      } else if frames == [] && IsStop(t) {
        return Rejected;
      }
    }
    WalkEnds(ts, frames, unsupported);
    var whole := ts + Closers(frames);
    if frames != [] && |whole| > TOKEN_MAX {
      return TooDeep;
    }
    for i: nat := 0 to |whole|
      invariant forall k :: 0 <= k < i ==> CallAtOk(whole, k)
    {
      if !CallAtOk(whole, i) {
        return Rejected;
      }
    }
    r := if unsupported then Unsupported else Normal(whole);
  }

  lemma WalkEnds(ts: Stream, frames: seq<Frame>, unsupported: bool)
    ensures Walk(ts, |ts|, frames, unsupported) == Walked(frames, unsupported)
  {
  }

  lemma WalkStep(ts: Stream, i: nat, frames: seq<Frame>, unsupported: bool)
    requires i < |ts|
    ensures var t, flag, w := ts[i], unsupported || Refused(ts, i, frames), Walk(ts, i, frames, unsupported);
      && (IsBadToken(t) ==> w == WalkRejected)
      && (!IsBadToken(t) && Closer(t) != 0 ==>
            w == if |frames| == DEPTH_MAX then WalkTooDeep else Walk(ts, i + 1, [Frame(Closer(t), IsVar(t))] + frames, flag))
      && (!IsBadToken(t) && Closer(t) == 0 && Closes(t) ==>
            w == if frames == [] || frames[0].closer != t.delim then WalkRejected else Walk(ts, i + 1, frames[1..], flag))
      && (!IsBadToken(t) && Closer(t) == 0 && !Closes(t) ==>
            w == if frames == [] && IsStop(t) then WalkRejected else Walk(ts, i + 1, frames, flag))
  {
    hide Refused;
  }

  // ---- Keywords, and what a substituted value becomes ----

  predicate IsKeyword(ts: Stream, word: string) {
    var inner := Trim(ts);
    |inner| == 1 && inner[0].Ident? && IsWord(inner[0].value, word)
  }

  predicate IsRevert(ts: Stream) {
    IsKeyword(ts, "revert") || IsKeyword(ts, "revert-layer") || IsKeyword(ts, "revert-rule")
  }

  predicate IsInherit(ts: Stream) { IsKeyword(ts, "inherit") || IsKeyword(ts, "unset") }

  /** The computed value after substitution; none when the call as a whole fails. */
  function Settle(parent: Env, name: Name, sub: Sub): Option<Value> {
    if sub.bad then Some(Invalid)
    else
      match Normalize(AppendAll([], sub.out))
      case Normal(ts) =>
        if IsRevert(ts) then None
        else if IsKeyword(ts, "initial") then Some(Invalid)
        else if IsInherit(ts) then Some(ValueIn(parent, name))
        else Some(Valid(ts))
      case _ => None
  }

  /** Plain values stay plain: a computed value is balanced and free of calls. */
  lemma SettlePlain(parent: Env, name: Name, env: Env, ts: Stream)
    requires PlainValues(parent) && PlainValues(env) && Balanced(ts)
    ensures var v := Settle(parent, name, Substitute(env, ts)); v.Some? && v.value.Valid? ==> Plain(v.value.tokens)
  {
    hide Normalize, Substitute, Trim, Open, IsWord;
    var sub := Substitute(env, ts);
    SubstituteOpens(env, ts, []);
    AppendAllKeeps([], sub.out);
    assert [] + sub.out == sub.out;
    var out := AppendAll([], sub.out);
    if !sub.bad && Normalize(out).Normal? {
      NormalIsBalanced(out);
    }
  }
}
