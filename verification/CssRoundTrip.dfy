/**
 Tokenizing a serialization gives the tokens back, with white-space runs collapsed.
 */
module CssRoundTrip {
  import opened CssTokens
  import opened CssSerialize
  import opened CssRelex

  // ---- What the tokenizer's own tokens look like ----

  predicate NumberText(text: Text, integer: bool) {
    && NumericAt(text, 0) && NumberLength(text) == |text| && IsInteger(text) == integer
    && forall i :: 0 <= i < |text| ==> 0 < text[i] < 128 && text[i] != 12 && text[i] != 13
  }

  predicate PlainHash(v: Text) {
    v != [] && (IsDigit(v[0]) || (v[0] == 45 && (|v| == 1 || IsDigit(v[1]))))
  }

  predicate PlainSymbol(c: nat) {
    && 0 < c < 128 && c != 12 && c != 13
    && !IsSpace(c) && !IsQuote(c) && !IsDigit(c) && !IsStart(c)
  }

  predicate Good(t: Token) {
    match t
    case Whitespace(v) => v != [] && AllSpace(v)
    case Ident(v) => v != [] && Scalars(v)
    case Function(v) => v != [] && Scalars(v)
    case AtKeyword(v) => v != [] && Scalars(v)
    case Hash(v, id) => v != [] && Scalars(v) && (!id ==> PlainHash(v))
    case String(v) => Scalars(v)
    case Url(v) => Scalars(v)
    case Number(text, integer) => NumberText(text, integer)
    case Percentage(text, integer) => NumberText(text, integer)
    case Dimension(text, integer, v) => NumberText(text, integer) && v != [] && Scalars(v)
    case Symbol(c) => PlainSymbol(c)
    case _ => !IsBad(t)
  }

  /** A lone backslash is followed by white space, and the function `url(` by a string. */
  predicate Follows(t: Token, rest: seq<Token>) {
    && (t == Symbol(92) ==> rest != [] && rest[0].Whitespace?)
    && (t.Function? && IsUrlName(t.value) ==>
          || (rest != [] && rest[0].String?)
          || (|rest| > 1 && rest[0].Whitespace? && rest[1].String?))
  }

  predicate GoodSeq(ts: seq<Token>) {
    ts != [] ==> Good(ts[0]) && Follows(ts[0], ts[1..]) && GoodSeq(ts[1..])
  }

  // ---- One token and what follows it ----

  /** What the serializer puts behind a token other than white space and functions. */
  predicate Breaks(rest: Text) { rest == [] || rest[0] == 47 || IsSpace(rest[0]) }

  lemma BreaksEnds(rest: Text)
    requires Breaks(rest)
    ensures EndsName(rest) && EndsNumber(rest) && C(rest, 0) != 40 && C(rest, 0) != 37 && !IdentAt(rest, 0)
  {
  }

  lemma {:induction false} Utf16Ascii(v: Text)
    requires forall i :: 0 <= i < |v| ==> v[i] < 128
    ensures Utf16s(v) == v
  {
    if v != [] {
      Utf16Ascii(v[1..]);
      assert v == [v[0]] + v[1..];
    }
  }

  lemma EscapesStart(v: Text, rest: Text)
    requires v != [] && Scalars(v)
    ensures var s := Escapes(v) + rest; s != [] && s[0] == 92 && EscapeAt(s, 0) && IdentAt(s, 0) && !NumericAt(s, 0)
  {
    hide Escape;
    Assoc(Escape(v[0]), Escapes(v[1..]), rest);
    EscapeReadsBack(v[0], Escapes(v[1..]) + rest);
  }

  /** The first token of a text is `t`, taking up exactly that text. */
  predicate Reads(t: Token, text: Text, rest: Text) {
    && text != [] && !AtComment(text + rest)
    && First(text + rest) == Read(t, |text|)
  }

  lemma IdentReads(v: Text, rest: Text)
    requires v != [] && Scalars(v) && Breaks(rest)
    ensures Reads(Ident(v), Escapes(v), rest)
  {
    hide Escapes, Name;
    BreaksEnds(rest);
    EscapesStart(v, rest);
    NameReadsBack(v, rest);
    EscapesNonEmpty(v);
  }

  lemma EscapesNonEmpty(v: Text)
    requires v != []
    ensures Escapes(v) != []
  {
  }

  predicate UrlQuoted(v: Text, rest: Text) { IsUrlName(v) ==> IsQuote(C(rest, SpaceRun(rest))) }

  lemma FunctionReads(v: Text, rest: Text)
    requires v != [] && Scalars(v) && UrlQuoted(v, rest)
    ensures Reads(Function(v), Escapes(v) + [40], rest)
  {
    hide Escapes, Name, SpaceRun;
    var tail := [40] + rest;
    Assoc(Escapes(v), [40], rest);
    EscapesStart(v, tail);
    NameReadsBack(v, tail);
    var s := Escapes(v) + tail;
    assert C(s, |Escapes(v)|) == 40;
    assert s[|Escapes(v)| + 1..] == rest;
    assert forall k: nat :: C(s, |Escapes(v)| + 1 + k) == C(rest, k);
  }

  lemma AtReads(v: Text, rest: Text)
    requires v != [] && Scalars(v) && Breaks(rest)
    ensures Reads(AtKeyword(v), [64] + Escapes(v), rest)
  {
    hide Escapes, Name;
    BreaksEnds(rest);
    EscapesStart(v, rest);
    NameReadsBack(v, rest);
    Assoc([64], Escapes(v), rest);
    var s := [64] + (Escapes(v) + rest);
    assert s[1..] == Escapes(v) + rest;
    SuffixAt(s, 1);
  }

  lemma HashStart(v: Text, rest: Text)
    requires v != [] && Scalars(v) && PlainHash(v) && Breaks(rest)
    ensures var s := HashText(false, v, 0) + rest; IsName(C(s, 0)) && !IdentAt(s, 0)
  {
    hide Escape;
    assert HashText(false, v, 0) == [v[0]] + HashText(false, v, 1);
    if |v| > 1 && v[0] == 45 {
      assert HashText(false, v, 1) == [v[1]] + HashText(false, v, 2);
    }
  }

  lemma {:induction false} HashIdText(v: Text, k: nat)
    requires k <= |v|
    ensures HashText(true, v, k) == Escapes(v[k..])
    decreases |v| - k
  {
    hide Escape;
    if k < |v| {
      HashIdText(v, k + 1);
      assert v[k..][1..] == v[k + 1..];
    }
  }

  lemma HashReads(v: Text, id: bool, rest: Text)
    requires v != [] && Scalars(v) && (!id ==> PlainHash(v)) && Breaks(rest)
    ensures Reads(Hash(v, id), [35] + HashText(id, v, 0), rest)
  {
    hide Escapes, Name, HashText;
    BreaksEnds(rest);
    HashReadsBack(id, v, 0, rest);
    assert v[0..] == v;
    Assoc([35], HashText(id, v, 0), rest);
    var tail := HashText(id, v, 0) + rest;
    var s := [35] + tail;
    assert s[1..] == tail;
    SuffixAt(s, 1);
    if id {
      HashIdText(v, 0);
      EscapesStart(v, rest);
    } else {
      HashStart(v, rest);
    }
    assert !NumericAt(s, 0) && !IsSpace(s[0]) && !IsQuote(s[0]);
  }

  lemma StringReads(v: Text, rest: Text)
    requires Scalars(v)
    ensures Reads(String(v), [34] + Escapes(v) + [34], rest)
  {
    hide Escapes, StringBody;
    StringReadsBack(v, [34] + rest);
    var s := [34] + Escapes(v) + [34] + rest;
    assert s[1..] == Escapes(v) + ([34] + rest);
  }

  lemma NameCons(c: nat, tail: Text)
    requires IsName(c)
    ensures Name([c] + tail) == Read([c] + Name(tail).value, 1 + Name(tail).length)
  {
    assert ([c] + tail)[1..] == tail;
  }

  lemma UrlName(tail: Text)
    requires !IsName(C(tail, 0)) && !EscapeAt(tail, 0)
    ensures Name([117, 114, 108] + tail) == Read([117, 114, 108], 3)
  {
    hide Name;
    assert Name(tail) == Read([], 0) by { NameEnds(tail); }
    var a := [108] + tail;
    var b := [114] + a;
    NameCons(108, tail);
    NameCons(114, a);
    NameCons(117, b);
    assert [117, 114, 108] + tail == [117] + b;
    assert [108] + [] == [108] && [114] + [108] == [114, 108] && [117] + [114, 108] == [117, 114, 108];
  }

  lemma NameEnds(tail: Text)
    requires EndsName(tail)
    ensures Name(tail) == Read([], 0)
  {
  }

  lemma UrlReads(v: Text, rest: Text)
    requires Scalars(v)
    ensures Reads(Url(v), [117, 114, 108, 40] + Escapes(v) + [41], rest)
  {
    hide Escapes, Name, UrlBody;
    var body := Escapes(v) + ([41] + rest);
    UrlReadsBack(v, [41] + rest);
    var s := [117, 114, 108, 40] + Escapes(v) + [41] + rest;
    assert s == [117, 114, 108] + ([40] + body);
    UrlName([40] + body);
    assert s[4..] == body;
    assert !IsSpace(C(body, 0)) && !IsQuote(C(body, 0)) by {
      if v == [] {
        NoEscapes();
      } else {
        EscapesStart(v, [41] + rest);
      }
    }
    assert SpaceRun(body) == 0;
  }

  lemma NoEscapes()
    ensures Escapes([]) == []
  {
  }

  lemma NumericHead(s: Text)
    requires NumericAt(s, 0)
    ensures s != [] && !IsSpace(s[0]) && !IsQuote(s[0]) && s[0] != 60 && s[0] != 47
    ensures !(s[0] == 45 && C(s, 1) == 45)
  {
  }

  /** A number's text followed by something that ends it is one numeric token. */
  lemma NumberStarts(text: Text, integer: bool, rest: Text)
    requires NumberText(text, integer) && EndsNumber(rest)
    ensures var s := text + rest;
      && s != [] && !AtComment(s) && First(s) == NumberToken(s)
      && NumberLength(s) == |text| && IsInteger(s) == integer && s[..|text|] == text && s[|text|..] == rest
  {
    hide NumberLength, IsInteger;
    assert text[..|text|] == text;
    NumberReadsBack(text, rest);
    NumericCut(text, rest);
    NumericHead(text + rest);
  }

  lemma NumberReads(text: Text, integer: bool, rest: Text)
    requires NumberText(text, integer) && Breaks(rest)
    ensures Reads(Number(text, integer), text, rest)
  {
    hide NumberLength, IsInteger;
    BreaksEnds(rest);
    NumberStarts(text, integer, rest);
    SuffixAt(text + rest, |text|);
  }

  lemma PercentageReads(text: Text, integer: bool, rest: Text)
    requires NumberText(text, integer)
    ensures Reads(Percentage(text, integer), text + [37], rest)
  {
    hide NumberLength, IsInteger;
    Assoc(text, [37], rest);
    NumberStarts(text, integer, [37] + rest);
    SuffixAt(text + ([37] + rest), |text|);
  }

  lemma DimensionReads(text: Text, integer: bool, v: Text, rest: Text)
    requires NumberText(text, integer) && v != [] && Scalars(v) && Breaks(rest)
    ensures Reads(Dimension(text, integer, v), text + Escapes(v), rest)
  {
    hide NumberLength, IsInteger, Escapes, Name;
    BreaksEnds(rest);
    var tail := Escapes(v) + rest;
    Assoc(text, Escapes(v), rest);
    EscapesStart(v, rest);
    NumberStarts(text, integer, tail);
    NameReadsBack(v, rest);
    SuffixAt(text + tail, |text|);
    EscapesNonEmpty(v);
  }

  lemma SymbolReads(c: nat, rest: Text)
    requires PlainSymbol(c) && c != 92 && Breaks(rest)
    ensures Reads(Symbol(c), [c], rest)
  {
    BreaksEnds(rest);
    var s := [c] + rest;
    assert C(s, 1) == C(rest, 0);
  }

  lemma BackslashReads(rest: Text)
    requires C(rest, 0) == 10
    ensures Reads(Symbol(92), [92], rest)
  {
    var s := [92] + rest;
    assert C(s, 1) == 10;
  }

  /** What must follow the text of `t` for it to be read back. */
  predicate Safe(t: Token, rest: Text) {
    match t
    case Function(v) => UrlQuoted(v, rest)
    case _ => Breaks(rest)
  }

  lemma TokenReads(t: Token, rest: Text)
    requires Good(t) && !t.Whitespace? && t != Symbol(92) && Safe(t, rest)
    ensures !IsBad(t) && Reads(t, TextOf(t), rest)
  {
    hide Reads, Escapes, HashText, NumberLength, IsInteger;
    match t
    case Ident(v) => IdentReads(v, rest);
    case Function(v) => FunctionReads(v, rest);
    case AtKeyword(v) => AtReads(v, rest);
    case Hash(v, id) => HashReads(v, id, rest);
    case String(v) => StringReads(v, rest);
    case Url(v) => UrlReads(v, rest);
    case Number(text, integer) =>
      Utf16Ascii(text);
      NumberReads(text, integer, rest);
    case Percentage(text, integer) =>
      Utf16Ascii(text);
      PercentageReads(text, integer, rest);
    case Dimension(text, integer, v) =>
      Utf16Ascii(text);
      DimensionReads(text, integer, v, rest);
    case Cdo => CommentMarkReads(rest);
    case Cdc => CommentMarkReads(rest);
    case Symbol(c) => SymbolReads(c, rest);
  }

  lemma CommentMarkReads(rest: Text)
    ensures Reads(Cdo, [60, 33, 45, 45], rest) && Reads(Cdc, [45, 45, 62], rest)
  {
  }

  // ---- Token sequences ----

  /** Puts white space in front, joining it with white space that is already there. */
  function Merge(v: Text, ts: seq<Token>): seq<Token> {
    if ts != [] && ts[0].Whitespace? then [Whitespace(v + ts[0].value)] + ts[1..] else [Whitespace(v)] + ts
  }

  /** The same tokens with every white-space run joined; a lone backslash gains its newline. */
  function Collapse(ts: seq<Token>): seq<Token> {
    if ts == [] then []
    else
      var rest := Collapse(ts[1..]);
      match ts[0]
      case Whitespace(v) => Merge(v, rest)
      case Symbol(c) => if c == 92 then [ts[0]] + Merge([10], rest) else [ts[0]] + rest
      case _ => [ts[0]] + rest
  }

  lemma FirstSpace(s: Text)
    requires s != [] && IsSpace(s[0])
    ensures Tokens(s) == [Whitespace(s[..SpaceRun(s)])] + Tokens(s[SpaceRun(s)..])
  {
  }

  lemma {:induction false} SpaceRunConcat(v: Text, x: Text)
    requires AllSpace(v)
    ensures SpaceRun(v + x) == |v| + SpaceRun(x)
  {
    if v == [] {
      assert v + x == x;
    } else {
      assert (v + x)[1..] == v[1..] + x;
      SpaceRunConcat(v[1..], x);
    }
  }

  /** White space in front of a text is read as one token together with the space that follows. */
  lemma SpaceReads(v: Text, x: Text)
    requires v != [] && AllSpace(v)
    requires IsSpace(C(x, 0)) || Tokens(x) == [] || !Tokens(x)[0].Whitespace?
    ensures Tokens(v + x) == Merge(v, Tokens(x))
  {
    hide Tokens, SpaceRun;
    FirstSpace(v + x);
    SpaceRunConcat(v, x);
    if IsSpace(C(x, 0)) {
      FirstSpace(x);
      var k := SpaceRun(x);
      assert (v + x)[..|v| + k] == v + x[..k] && (v + x)[|v| + k..] == x[k..];
    } else {
      SpaceRunOf([], x);
      assert [] + x == x;
      assert (v + x)[..|v|] == v && (v + x)[|v|..] == x;
    }
  }

  lemma TokenThen(t: Token, text: Text, rest: Text)
    requires Reads(t, text, rest)
    ensures Tokens(text + rest) == [t] + Tokens(rest)
  {
    hide First;
    assert (text + rest)[|text|..] == rest;
  }

  lemma SeparatorReads(rest: Text)
    ensures Tokens(SEPARATOR + rest) == Tokens(rest)
  {
    var s := SEPARATOR + rest;
    assert s[2..] == [42, 47] + rest;
    assert s[4..] == rest;
    assert C(s, 0) == 47 && C(s, 1) == 42;
  }

  /** The first code point of a serialization. */
  predicate Heads(ts: seq<Token>, previous: bool, s: Text) {
    if ts == [] then s == []
    else if ts[0].Whitespace? then s != [] && IsSpace(s[0])
    else s != [] && !IsSpace(s[0]) && (previous ==> s[0] == 47) && (!previous && ts[0].String? ==> s[0] == 34)
  }

  lemma TextHead(t: Token)
    requires Good(t)
    ensures !IsBad(t) && TextOf(t) != []
    ensures t.Whitespace? ==> IsSpace(TextOf(t)[0]) && TextOf(t) == t.value
    ensures !t.Whitespace? ==> !IsSpace(TextOf(t)[0])
    ensures t.String? ==> TextOf(t)[0] == 34
  {
    hide Escapes, HashText, NumberLength, IsInteger;
    match t
    case Whitespace(v) => Utf16Ascii(v);
    case Ident(v) => EscapesHead(v);
    case Function(v) => EscapesHead(v);
    case Number(text, _) =>
      Utf16Ascii(text);
      NumericHead(text);
    case Percentage(text, _) =>
      Utf16Ascii(text);
      NumericHead(text);
    case Dimension(text, _, _) =>
      Utf16Ascii(text);
      NumericHead(text);
    case _ =>
  }

  lemma EscapesHead(v: Text)
    requires v != [] && Scalars(v)
    ensures Escapes(v) != [] && Escapes(v)[0] == 92
  {
    hide Escapes;
    EscapesStart(v, []);
    assert Escapes(v) + [] == Escapes(v);
  }

  lemma SerialHead(ts: seq<Token>, previous: bool)
    requires GoodSeq(ts) && NoBad(ts)
    ensures Heads(ts, previous, Serial(ts, previous))
  {
    hide TextOf, Good;
    if ts != [] {
      TextHead(ts[0]);
      var text := TextOf(ts[0]) + Serial(ts[1..], !ts[0].Whitespace? && !ts[0].Function?);
      assert text[0] == TextOf(ts[0])[0];
    }
  }

  lemma SerialParts(ts: seq<Token>)
    requires ts != [] && NoBad(ts)
    ensures NoBad(ts[1..])
    ensures Serial(ts, false) == TextOf(ts[0]) + Serial(ts[1..], !ts[0].Whitespace? && !ts[0].Function?)
    ensures Serial(ts, true) == if ts[0].Whitespace? then Serial(ts, false) else SEPARATOR + Serial(ts, false)
  {
    hide TextOf;
  }

  /** What the serializer puts behind a token lets the token be read back. */
  lemma SerialIsSafe(ts: seq<Token>)
    requires ts != [] && GoodSeq(ts) && NoBad(ts) && NoBad(ts[1..]) && !ts[0].Whitespace?
    ensures Safe(ts[0], Serial(ts[1..], !ts[0].Function?))
  {
    hide TextOf, Good;
    var t, rest := ts[0], ts[1..];
    SerialHead(rest, !t.Function?);
    if t.Function? && IsUrlName(t.value) {
      var s := Serial(rest, false);
      if rest[0].String? {
        assert SpaceRun(s) == 0;
      } else {
        SerialParts(rest);
        TextHead(rest[0]);
        SerialHead(rest[1..], false);
        WhitespaceValue(rest[0]);
        SpaceRunOf(rest[0].value, Serial(rest[1..], false));
      }
    }
  }

  lemma WhitespaceValue(t: Token)
    requires Good(t) && t.Whitespace?
    ensures t.value != [] && AllSpace(t.value)
  {
  }

  lemma CollapseHead(ts: seq<Token>)
    requires ts != []
    ensures Collapse(ts) != [] && Collapse(ts)[0].Whitespace? == ts[0].Whitespace?
  {
  }

  /** The heart of the round trip: reading a serialization gives the collapsed tokens. */
  lemma {:induction false} SerialReadsBack(ts: seq<Token>, previous: bool)
    requires GoodSeq(ts) && NoBad(ts)
    ensures Tokens(Serial(ts, previous)) == Collapse(ts)
    decreases |ts|, previous
  {
    hide Tokens, TextOf, Serial, Good, Merge, Safe;
    if ts == [] {
      NothingReads(previous);
    } else {
      SerialParts(ts);
      if previous {
        SerialReadsBack(ts, false);
        SeparatorReads(Serial(ts, false));
      } else {
        var t, rest := ts[0], Serial(ts[1..], !ts[0].Whitespace? && !ts[0].Function?);
        SerialReadsBack(ts[1..], !t.Whitespace? && !t.Function?);
        if t.Whitespace? {
          TextHead(t);
          WhitespaceValue(t);
          SerialHead(ts[1..], false);
          if ts[1..] != [] {
            CollapseHead(ts[1..]);
          }
          SpaceReads(t.value, rest);
        } else if t == Symbol(92) {
          BackslashSerial(ts);
        } else {
          SerialIsSafe(ts);
          TokenReads(t, rest);
          TokenThen(t, TextOf(t), rest);
        }
      }
    }
  }

  lemma NothingReads(previous: bool)
    ensures Serial([], previous) == [] && Tokens([]) == []
  {
  }

  lemma BackslashSerial(ts: seq<Token>)
    requires GoodSeq(ts) && NoBad(ts) && ts != [] && ts[0] == Symbol(92) && NoBad(ts[1..])
    requires Tokens(Serial(ts[1..], true)) == Collapse(ts[1..])
    ensures Tokens(TextOf(ts[0]) + Serial(ts[1..], true)) == Collapse(ts)
  {
    hide Tokens, Serial, Good, Collapse;
    var rest := Serial(ts[1..], true);
    SerialHead(ts[1..], true);
    assert [92, 10] + rest == [92] + ([10] + rest);
    BackslashReads([10] + rest);
    TokenThen(Symbol(92), [92], [10] + rest);
    SpaceReads([10], rest);
    CollapseBackslash(ts);
  }

  lemma CollapseBackslash(ts: seq<Token>)
    requires ts != [] && ts[0] == Symbol(92)
    ensures Collapse(ts) == [ts[0]] + Merge([10], Collapse(ts[1..]))
  {
    hide Merge;
  }
}
