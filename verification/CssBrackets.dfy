/**
 Brackets in token streams, the argument scan of `var(`, and the white-space-merging append.
 */
module CssBrackets {
  import opened Options
  import opened CssTokens

  type Stream = seq<Token>

  /** The closing code point that a token calls for, or 0. */
  function Closer(t: Token): nat {
    match t
    case Function(_) => 41
    case Symbol(c) => if c == 40 then 41 else if c == 91 then 93 else if c == 123 then 125 else 0
    case _ => 0
  }

  predicate Closes(t: Token) { t == Symbol(41) || t == Symbol(93) || t == Symbol(125) }

  predicate IsVar(t: Token) {
    t.Function? && |t.value| == 3 && Lower(t.value[0]) == 118 && Lower(t.value[1]) == 97 && Lower(t.value[2]) == 114
  }

  // ---- Matching brackets ----

  /** The brackets open after the tokens, innermost first; none if a bracket does not match. */
  function Open(ts: Stream, stack: seq<nat>): Option<seq<nat>> {
    if ts == [] then Some(stack)
    else if Closer(ts[0]) != 0 then Open(ts[1..], [Closer(ts[0])] + stack)
    else if Closes(ts[0]) then
      if stack != [] && ts[0].delim == stack[0] then Open(ts[1..], stack[1..]) else None
    else Open(ts[1..], stack)
  }

  predicate Balanced(ts: Stream) { Open(ts, []) == Some([]) }

  lemma {:induction false} OpenConcat(a: Stream, b: Stream, stack: seq<nat>)
    ensures Open(a + b, stack) == match Open(a, stack) case None => None case Some(s) => Open(b, s)
  {
    if a == [] {
      assert a + b == b;
    } else {
      assert (a + b)[1..] == a[1..] + b;
      if Closer(a[0]) != 0 {
        OpenConcat(a[1..], b, [Closer(a[0])] + stack);
      } else if Closes(a[0]) {
        if stack != [] && a[0].delim == stack[0] {
          OpenConcat(a[1..], b, stack[1..]);
        }
      } else {
        OpenConcat(a[1..], b, stack);
      }
    }
  }

  /** What is open underneath does not matter to tokens that never close it. */
  lemma {:induction false} OpenUnder(ts: Stream, stack: seq<nat>, under: seq<nat>)
    requires Open(ts, stack).Some?
    ensures Open(ts, stack + under) == Some(Open(ts, stack).value + under)
  {
    if ts != [] {
      if Closer(ts[0]) != 0 {
        assert [Closer(ts[0])] + (stack + under) == [Closer(ts[0])] + stack + under;
        OpenUnder(ts[1..], [Closer(ts[0])] + stack, under);
      } else if Closes(ts[0]) {
        assert (stack + under)[1..] == stack[1..] + under;
        OpenUnder(ts[1..], stack[1..], under);
      } else {
        OpenUnder(ts[1..], stack, under);
      }
    }
  }

  lemma BalancedConcat(a: Stream, b: Stream)
    requires Balanced(a)
    ensures Balanced(a + b) == Balanced(b)
  {
    OpenConcat(a, b, []);
  }

  // ---- The argument scan ----

  /** Where an argument list closes, and where its first top-level comma is. */
  datatype Argument = Argument(close: nat, comma: Option<nat>)

  function Later(a: Option<Argument>): Option<Argument> {
    match a
    case None => None
    case Some(Argument(close, comma)) => Some(Argument(close + 1, match comma case None => None case Some(c) => Some(c + 1)))
  }

  /** Counts brackets of any kind down from `level`. */
  function Find(ts: Stream, level: nat): Option<Argument>
    requires level > 0
  {
    if ts == [] then None
    else if Closer(ts[0]) != 0 then Later(Find(ts[1..], level + 1))
    else if Closes(ts[0]) then if level == 1 then Some(Argument(0, None)) else Later(Find(ts[1..], level - 1))
    else
      var rest := Later(Find(ts[1..], level));
      if ts[0] == Symbol(44) && level == 1 && rest.Some? then Some(Argument(rest.value.close, Some(0))) else rest
  }

  lemma {:induction false} FindBounds(ts: Stream, level: nat)
    requires level > 0 && Find(ts, level).Some?
    ensures var a := Find(ts, level).value;
      && a.close < |ts| && Closes(ts[a.close])
      && (a.comma.Some? ==> a.comma.value < a.close && ts[a.comma.value] == Symbol(44))
  {
    if Closer(ts[0]) != 0 {
      FindBounds(ts[1..], level + 1);
    } else if Closes(ts[0]) {
      if level > 1 {
        FindBounds(ts[1..], level - 1);
      }
    } else {
      FindBounds(ts[1..], level);
    }
  }

  /** On matched brackets the scan finds the true end, and what it delimits is matched again. */
  lemma {:induction false} FindMatches(ts: Stream, stack: seq<nat>, under: nat)
    requires Open(ts, stack + [under]) == Some([])
    ensures Find(ts, |stack| + 1).Some?
    ensures var a := Find(ts, |stack| + 1).value;
      && a.close < |ts| && Open(ts[..a.close], stack) == Some([]) && Balanced(ts[a.close + 1..])
      && (a.comma.Some? ==> a.comma.value < a.close && Open(ts[..a.comma.value], stack) == Some([]))
  {
    assert |stack + [under]| > 0;
    if ts != [] {
      var t, rest := ts[0], ts[1..];
      var next := if Closer(t) != 0 then [Closer(t)] + stack else if Closes(t) && stack != [] then stack[1..] else stack;
      if Closes(t) && stack == [] {
        assert (stack + [under])[1..] == [];
        assert ts[..0] == [];
      } else {
        assert next + [under] == if Closer(t) != 0 then [Closer(t)] + (stack + [under])
                                 else if Closes(t) then (stack + [under])[1..] else stack + [under];
        FindMatches(rest, next, under);
        var a, b := Find(ts, |stack| + 1).value, Find(rest, |next| + 1).value;
        FindStep(ts, stack, a.close);
        if a.comma.Some? && a.comma.value > 0 {
          FindStep(ts, stack, a.comma.value);
        }
        assert ts[a.close + 1..] == rest[b.close + 1..];
        assert ts[..0] == [];
      }
    }
  }

  lemma FindStep(ts: Stream, stack: seq<nat>, k: nat)
    requires ts != [] && 0 < k <= |ts| && !(Closes(ts[0]) && stack == [])
    ensures ts[..k][1..] == ts[1..][..k - 1] && ts[..k][0] == ts[0]
  {
  }

  /** The pieces of a `var(` call in a balanced stream. */
  lemma CallParts(ts: Stream)
    requires ts != [] && ts[0].Function? && Balanced(ts)
    ensures Find(ts[1..], 1).Some?
    ensures var a, body := Find(ts[1..], 1).value, ts[1..];
      && a.close < |body| && Balanced(body[..a.close]) && Balanced(body[a.close + 1..])
      && (a.comma.Some? ==>
            && a.comma.value < a.close && Balanced(body[..a.comma.value])
            && Balanced(body[a.comma.value + 1..a.close]))
  {
    var body := ts[1..];
    assert [41] + [] == [] + [41];
    FindMatches(body, [], 41);
    var a := Find(body, 1).value;
    FindBounds(body, 1);
    if a.comma.Some? {
      var c := a.comma.value;
      var inner := body[..a.close];
      assert inner == body[..c] + ([Symbol(44)] + body[c + 1..a.close]);
      BalancedConcat(body[..c], [Symbol(44)] + body[c + 1..a.close]);
      assert ([Symbol(44)] + body[c + 1..a.close])[1..] == body[c + 1..a.close];
    }
  }

  // ---- White space ----

  function SkipSpace(ts: Stream): (n: nat)
    ensures n <= |ts|
  {
    if ts != [] && ts[0].Whitespace? then 1 + SkipSpace(ts[1..]) else 0
  }

  function TrimEnd(ts: Stream): (n: nat)
    ensures n <= |ts|
  {
    if ts != [] && ts[|ts| - 1].Whitespace? then TrimEnd(ts[..|ts| - 1]) else |ts|
  }

  function Trim(ts: Stream): Stream {
    var front := ts[SkipSpace(ts)..];
    front[..TrimEnd(front)]
  }

  lemma {:induction false} SkipBalanced(ts: Stream)
    requires Balanced(ts)
    ensures Balanced(ts[SkipSpace(ts)..])
  {
    if ts != [] && ts[0].Whitespace? {
      SkipBalanced(ts[1..]);
      assert ts[SkipSpace(ts)..] == ts[1..][SkipSpace(ts[1..])..];
    } else {
      assert ts[0..] == ts;
    }
  }

  lemma {:induction false} TrimEndBalanced(ts: Stream)
    requires Balanced(ts)
    ensures Balanced(ts[..TrimEnd(ts)])
  {
    if ts != [] && ts[|ts| - 1].Whitespace? {
      var front, last := ts[..|ts| - 1], ts[|ts| - 1];
      assert ts == front + [last];
      OpenConcat(front, [last], []);
      TrimEndBalanced(front);
      assert ts[..TrimEnd(ts)] == front[..TrimEnd(front)];
    } else {
      assert ts[..|ts|] == ts;
    }
  }

  lemma TrimBalanced(ts: Stream)
    requires Balanced(ts)
    ensures Balanced(Trim(ts))
  {
    SkipBalanced(ts);
    TrimEndBalanced(ts[SkipSpace(ts)..]);
  }

  lemma TrimShorter(ts: Stream)
    ensures |Trim(ts)| <= |ts|
  {
  }

  // ---- Appending ----

  /** Adds one token; white space joins the white space before it. */
  function Append(out: Stream, t: Token): Stream {
    if t.Whitespace? && out != [] && out[|out| - 1].Whitespace?
    then out[..|out| - 1] + [Whitespace(out[|out| - 1].value + t.value)]
    else out + [t]
  }

  function AppendAll(out: Stream, ts: Stream): Stream
    decreases |ts|
  {
    if ts == [] then out else AppendAll(Append(out, ts[0]), ts[1..])
  }

  ghost predicate NoVar(ts: Stream) { forall i :: 0 <= i < |ts| ==> !IsVar(ts[i]) }

  lemma AppendKeeps(out: Stream, t: Token)
    ensures Open(Append(out, t), []) == Open(out + [t], [])
    ensures NoVar(out) && !IsVar(t) ==> NoVar(Append(out, t))
  {
    hide Open;
    if t.Whitespace? && out != [] && out[|out| - 1].Whitespace? {
      var front, last := out[..|out| - 1], out[|out| - 1];
      OpenConcat(front, [Whitespace(last.value + t.value)], []);
      OpenConcat(out, [t], []);
      assert out == front + [last];
      OpenConcat(front, [last], []);
      if Open(front, []).Some? {
        SpaceSkips(Whitespace(last.value + t.value), Open(front, []).value);
        SpaceSkips(last, Open(front, []).value);
        SpaceSkips(t, Open(front, []).value);
      }
    }
  }

  lemma SpaceSkips(w: Token, stack: seq<nat>)
    requires w.Whitespace?
    ensures Open([w], stack) == Some(stack)
  {
    assert [w][1..] == [];
  }

  /** Appending keeps brackets matched and introduces no call. */
  lemma {:induction false} AppendAllKeeps(out: Stream, ts: Stream)
    ensures Open(AppendAll(out, ts), []) == Open(out + ts, [])
    ensures NoVar(out) && NoVar(ts) ==> NoVar(AppendAll(out, ts))
    decreases |ts|
  {
    hide Open, IsVar;
    if ts == [] {
      assert out + ts == out;
    } else {
      AppendAllKeeps(Append(out, ts[0]), ts[1..]);
      AppendKeeps(out, ts[0]);
      OpenConcat(Append(out, ts[0]), ts[1..], []);
      OpenConcat(out + [ts[0]], ts[1..], []);
      assert out + ts == out + [ts[0]] + ts[1..];
      assert !IsVar(ts[0]) && NoVar(ts[1..]) <== NoVar(ts);
    }
  }

  lemma {:induction false} AppendAllConcat(out: Stream, a: Stream, b: Stream)
    ensures AppendAll(out, a + b) == AppendAll(AppendAll(out, a), b)
    decreases |a|
  {
    if a == [] {
      assert a + b == b;
    } else {
      assert (a + b)[1..] == a[1..] + b;
      AppendAllConcat(Append(out, a[0]), a[1..], b);
    }
  }
}
