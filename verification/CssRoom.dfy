/**
 The limits of a substitution: how large each buffer may grow and how deep calls may nest.
 */
module CssRoom {
  import opened Options
  import opened CssTokens
  import opened CssBrackets
  import opened CssSubstitution
  import opened CssNormalize

  const PROPERTY_MAX := 64

  function UnitsOf(t: Token): nat {
    match t
    case Whitespace(v) => |v|
    case Ident(v) => |v|
    case Function(v) => |v|
    case AtKeyword(v) => |v|
    case Hash(v, _) => |v|
    case String(v) => |v|
    case Url(v) => |v|
    case Number(text, _) => |text|
    case Percentage(text, _) => |text|
    case Dimension(text, _, v) => |text| + |v|
    case _ => 0
  }

  function PoolOf(ts: Stream): nat {
    if ts == [] then 0 else PoolOf(ts[..|ts| - 1]) + UnitsOf(ts[|ts| - 1])
  }

  predicate Fits(ts: Stream) { |ts| <= TOKEN_MAX && PoolOf(ts) <= POOL_MAX }

  /** Appending the tokens one by one never leaves the limits. */
  ghost predicate FitsAll(out: Stream, ts: Stream) {
    forall k: nat :: 0 < k <= |ts| ==> Fits(AppendAll(out, ts[..k]))
  }

  // ---- What computed values look like ----

  /** White space never follows white space. */
  ghost predicate Merged(ts: Stream) { forall i :: 0 < i < |ts| ==> !(ts[i - 1].Whitespace? && ts[i].Whitespace?) }

  ghost predicate Compact(ts: Stream) { Merged(ts) && Fits(ts) }

  lemma AppendMerges(out: Stream, t: Token)
    requires Merged(out)
    ensures Merged(Append(out, t))
  {
  }

  lemma {:induction false} AppendAllMerges(out: Stream, ts: Stream)
    requires Merged(out)
    ensures Merged(AppendAll(out, ts))
    decreases |ts|
  {
    hide Merged, Append;
    if ts != [] {
      AppendMerges(out, ts[0]);
      AppendAllMerges(Append(out, ts[0]), ts[1..]);
    }
  }

  /** Appending what is merged copies it. */
  lemma {:induction false} MergedCopies(ts: Stream, k: nat)
    requires Merged(ts) && k <= |ts|
    ensures AppendAll([], ts[..k]) == ts[..k]
  {
    if k > 0 {
      MergedCopies(ts, k - 1);
      AppendOne([], ts, k - 1);
      assert ts[..k] == ts[..k - 1] + [ts[k - 1]];
    }
  }

  lemma {:induction false} PrefixFits(ts: Stream, k: nat)
    requires Fits(ts) && k <= |ts|
    ensures Fits(ts[..k])
    decreases |ts|
  {
    if k < |ts| {
      PrefixFits(ts[..|ts| - 1], k);
      assert ts[..|ts| - 1][..k] == ts[..k];
    } else {
      assert ts[..k] == ts;
    }
  }

  /** A compact stream can be copied. */
  lemma CompactCopies(ts: Stream)
    requires Compact(ts)
    ensures AppendAll([], ts) == ts && FitsAll([], ts)
  {
    MergedCopies(ts, |ts|);
    assert ts[..|ts|] == ts;
    forall k: nat | 0 < k <= |ts| ensures Fits(AppendAll([], ts[..k])) {
      MergedCopies(ts, k);
      PrefixFits(ts, k);
    }
  }

  predicate IsWide(ts: Stream) { IsRevert(ts) || IsKeyword(ts, "initial") || IsInherit(ts) }

  /** A computed value: without calls, compact, normal, and no CSS-wide keyword. */
  ghost predicate Kept(ts: Stream) {
    Plain(ts) && Compact(ts) && Normalize(ts) == Normal(ts) && !IsWide(ts)
  }

  ghost predicate KeptValues(env: Env) {
    forall n :: n in env && env[n].Valid? ==> Kept(env[n].tokens)
  }

  lemma KeptArePlain(env: Env)
    requires KeptValues(env)
    ensures PlainValues(env)
  {
    hide Plain, Normalize, Compact, IsWide;
  }

  /** The result of a substitution within the limits is kept. */
  lemma SettleKept(parent: Env, name: Name, env: Env, ts: Stream)
    requires KeptValues(parent) && PlainValues(env) && Balanced(ts)
    requires !Substitute(env, ts).bad ==> Fits(AppendAll([], Substitute(env, ts).out))
    ensures var v := Settle(parent, name, Substitute(env, ts)); v.Some? && v.value.Valid? ==> Kept(v.value.tokens)
  {
    hide Normalize, Substitute, IsKeyword, Open, AppendAll, Fits;
    KeptArePlain(parent);
    SettlePlain(parent, name, env, ts);
    var sub := Substitute(env, ts);
    SubstituteOpens(env, ts, []);
    AppendAllKeeps([], sub.out);
    assert [] + sub.out == sub.out;
    AppendAllMerges([], sub.out);
    var out := AppendAll([], sub.out);
    if !sub.bad && Normalize(out).Normal? {
      NormalIsBalanced(out);
    }
  }

  /** A kept value, copied from elsewhere, settles as itself. */
  lemma KeptSettles(parent: Env, name: Name, ts: Stream)
    requires Kept(ts)
    ensures Settle(parent, name, Sub(ts, false)) == Some(Valid(ts))
  {
    hide Normalize, IsKeyword, AppendAll;
    CompactCopies(ts);
  }

  // ---- Appending within the limits ----

  lemma AppendOne(out: Stream, ts: Stream, k: nat)
    requires k < |ts|
    ensures AppendAll(out, ts[..k + 1]) == Append(AppendAll(out, ts[..k]), ts[k])
  {
    assert ts[..k + 1] == ts[..k] + [ts[k]];
    AppendAllConcat(out, ts[..k], [ts[k]]);
    assert [ts[k]][1..] == [];
  }

  /** Succeeds exactly if no prefix is too large. */
  method AppendTokens(out: Stream, ts: Stream) returns (ok: bool, r: Stream)
    ensures ok <==> FitsAll(out, ts)
    ensures ok ==> r == AppendAll(out, ts) && (Compact(out) ==> Compact(r))
  {
    hide Fits, Append, Merged;
    r := out;
    for k := 0 to |ts|
      invariant r == AppendAll(out, ts[..k])
      invariant forall j: nat :: 0 < j <= k ==> Fits(AppendAll(out, ts[..j]))
    {
      AppendOne(out, ts, k);
      r := Append(r, ts[k]);
      if !Fits(r) {
        return false, r;
      }
    }
    assert ts[..|ts|] == ts;
    if Merged(out) {
      AppendAllMerges(out, ts);
    }
    ok := true;
  }

  /** Substituting `ts` behind `out` overfills no buffer and nests no deeper than allowed. */
  ghost predicate Room(env: Env, ts: Stream, out: Stream, depth: nat)
    decreases |ts|, 1
  {
    && depth <= DEPTH_MAX
    && (ts == [] ||
          if !IsVar(ts[0]) then FitsAll(out, [ts[0]]) && Room(env, ts[1..], AppendAll(out, [ts[0]]), depth)
          else match Find(ts[1..], 1)
               case None => true
               case Some(a) =>
                 FindBounds(ts[1..], 1);
                 var inner := ts[1..][..a.close];
                 && CallRoom(env, inner, a.comma, out, depth)
                 && Room(env, ts[1..][a.close + 1..], AppendAll(out, SubstituteCall(env, inner, a.comma).out), depth))
  }

  /** The first argument has a buffer of its own; the value or the fallback goes behind `out`. */
  ghost predicate CallRoom(env: Env, inner: Stream, comma: Option<nat>, out: Stream, depth: nat)
    decreases |inner|, 2
  {
    CallOk(inner, comma) ==>
      (TrimShorter(FirstPart(inner, comma));
       && Room(env, Trim(FirstPart(inner, comma)), [], depth + 1)
       && match KeyValue(env, Key(env, inner, comma))
          case Valid(tokens) => FitsAll(out, tokens)
          case Invalid => comma.Some? ==> Room(env, Fallback(inner, comma), out, depth + 1))
  }

  lemma RoomEnds(env: Env, out: Stream, depth: nat)
    ensures Room(env, [], out, depth) <==> depth <= DEPTH_MAX
  {
  }

  lemma RoomToken(env: Env, seg: Stream, i: nat, out: Stream, depth: nat)
    requires i < |seg| && !IsVar(seg[i]) && depth <= DEPTH_MAX
    ensures Room(env, seg[i..], out, depth) <==>
      FitsAll(out, [seg[i]]) && Room(env, seg[i + 1..], AppendAll(out, [seg[i]]), depth)
  {
    hide FitsAll;
    assert seg[i..][1..] == seg[i + 1..];
  }

  lemma RoomCall(env: Env, seg: Stream, i: nat, a: Argument, out: Stream, depth: nat)
    requires i < |seg| && IsVar(seg[i]) && depth <= DEPTH_MAX && Find(seg[i + 1..], 1) == Some(a) && i + a.close + 2 <= |seg|
    ensures var inner := seg[i + 1..][..a.close];
      Room(env, seg[i..], out, depth) <==>
        CallRoom(env, inner, a.comma, out, depth)
        && Room(env, seg[i + a.close + 2..], AppendAll(out, SubstituteCall(env, inner, a.comma).out), depth)
  {
    hide CallRoom, SubstituteCall;
    assert seg[i..][1..] == seg[i + 1..] && seg[i + 1..][a.close + 1..] == seg[i + a.close + 2..];
  }
}
