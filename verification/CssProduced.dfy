/**
 What tokenizing an input can produce, and the round-trip theorem for every input.
 */
module CssProduced {
  import opened CssTokens
  import opened CssSerialize
  import opened CssRelex
  import opened CssRoundTrip

  /** Code points after preprocessing: scalar values, with form feed and carriage return gone. */
  predicate Clean(s: Text) {
    forall i :: 0 <= i < |s| ==> Scalar(s[i]) && s[i] != 12 && s[i] != 13
  }

  lemma {:induction false} PreprocessIsClean(u: Text)
    requires Units(u)
    ensures Clean(Preprocess(u)) && |Preprocess(u)| <= |u|
  {
    if u != [] {
      var k := if u[0] == 13 && C(u, 1) == 10 then 2
               else if 0xD800 <= u[0] <= 0xDBFF && 0xDC00 <= C(u, 1) <= 0xDFFF then 2 else 1;
      PreprocessIsClean(u[k..]);
      var rest := Preprocess(u[k..]);
      assert Preprocess(u) == [Preprocess(u)[0]] + rest;
    }
  }

  /** Plain text passes the preprocessor unchanged. */
  predicate Plain(u: Text) {
    forall i :: 0 <= i < |u| ==> 0 < u[i] < 128 && u[i] != 12 && u[i] != 13
  }

  lemma {:induction false} PreprocessOfPlain(u: Text)
    requires Plain(u)
    ensures Preprocess(u) == u
  {
    if u != [] {
      PreprocessOfPlain(u[1..]);
      assert u == [u[0]] + u[1..];
    }
  }

  // ---- Values are scalar ----

  lemma EscapedScalar(s: Text)
    requires s != [] && Clean(s)
    ensures Scalar(Escaped(s).value)
  {
  }

  lemma {:induction false} NameScalars(s: Text)
    requires Clean(s)
    ensures Scalars(Name(s).value)
  {
    if s != [] {
      if IsName(s[0]) {
        NameScalars(s[1..]);
      } else if EscapeAt(s, 0) {
        EscapedScalar(s);
        NameScalars(s[Escaped(s).length..]);
      }
    }
  }

  lemma {:induction false} StringScalars(s: Text, quote: nat)
    requires Clean(s)
    ensures Scalars(StringBody(s, quote).value)
  {
    hide Escaped;
    if s == [] || s[0] == quote || s[0] == 10 || s == [92] {
    } else if s[0] != 92 {
      StringScalars(s[1..], quote);
    } else if s[1] == 10 {
      StringScalars(s[2..], quote);
    } else {
      EscapedScalar(s);
      StringScalars(s[Escaped(s).length..], quote);
    }
  }

  lemma {:induction false} UrlScalars(s: Text)
    requires Clean(s)
    ensures Scalars(UrlBody(s).value)
  {
    hide Escaped, BadUrlLength;
    if s == [] || s[0] == 41 || IsSpace(s[0]) || NotInUrl(s[0]) {
    } else if s[0] != 92 {
      UrlScalars(s[1..]);
    } else if EscapeAt(s, 0) {
      EscapedScalar(s);
      UrlScalars(s[Escaped(s).length..]);
    }
  }

  // ---- Numbers are plain ----

  lemma PlainConcat(a: Text, b: Text)
    requires Plain(a) && Plain(b)
    ensures Plain(a + b)
  {
  }

  lemma DigitsPlain(s: Text)
    ensures Plain(s[..DigitRun(s)])
  {
    DigitRunIs(s);
  }

  lemma IntegerPlain(s: Text)
    ensures Plain(s[..IntegerLength(s)])
  {
    var a := SignLength(s);
    DigitsPlain(s[a..]);
    PlainConcat(s[..a], s[a..][..DigitRun(s[a..])]);
    assert s[..IntegerLength(s)] == s[..a] + s[a..][..DigitRun(s[a..])];
  }

  lemma FractionPlain(s: Text)
    ensures Plain(s[..FractionLength(s)])
  {
    if FractionLength(s) > 0 {
      DigitsPlain(s[2..]);
      PlainConcat(s[..2], s[2..][..DigitRun(s[2..])]);
      assert s[..FractionLength(s)] == s[..2] + s[2..][..DigitRun(s[2..])];
    }
  }

  lemma ExponentPlain(s: Text)
    ensures Plain(s[..ExponentLength(s)])
  {
    if ExponentLength(s) > 0 {
      var m := if IsSign(C(s, 1)) then 3 else 2;
      DigitsPlain(s[m..]);
      PlainConcat(s[..m], s[m..][..DigitRun(s[m..])]);
      assert s[..ExponentLength(s)] == s[..m] + s[m..][..DigitRun(s[m..])];
    }
  }

  lemma NumberPlain(s: Text)
    ensures Plain(s[..NumberLength(s)])
  {
    hide IntegerLength, FractionLength, ExponentLength;
    var a := IntegerLength(s);
    var f := FractionLength(s[a..]);
    var e := ExponentLength(s[a + f..]);
    IntegerPlain(s);
    FractionPlain(s[a..]);
    ExponentPlain(s[a + f..]);
    PlainConcat(s[..a], s[a..][..f]);
    assert s[..a + f] == s[..a] + s[a..][..f];
    PlainConcat(s[..a + f], s[a + f..][..e]);
    assert s[..NumberLength(s)] == s[..a + f] + s[a + f..][..e];
  }

  lemma NumberIsText(s: Text)
    requires NumericAt(s, 0)
    ensures NumberText(s[..NumberLength(s)], IsInteger(s))
  {
    hide NumberLength, IsInteger;
    var text := s[..NumberLength(s)];
    assert text + [] == text;
    NumberReadsBack(s, []);
    NumericCut(s, []);
    NumberPlain(s);
  }

  // ---- Each token is good ----

  lemma NumberGood(s: Text)
    requires NumericAt(s, 0) && Clean(s)
    ensures Good(NumberToken(s).value)
  {
    hide NumberLength, IsInteger, Name;
    NumberIsText(s);
    var n := NumberLength(s);
    if IdentAt(s, n) {
      SuffixAt(s, n);
      NameConsumes(s[n..]);
      NameScalars(s[n..]);
    }
  }

  lemma HashGood(s: Text)
    requires s != [] && Clean(s) && (IsName(C(s, 1)) || EscapeAt(s, 1))
    ensures Good(Hash(Name(s[1..]).value, IdentAt(s, 1)))
  {
    var rest := s[1..];
    SuffixAt(s, 1);
    NameConsumes(rest);
    NameScalars(rest);
    if !IdentAt(s, 1) {
      assert Name(rest).value == [rest[0]] + Name(rest[1..]).value;
      if rest[0] == 45 && rest[1..] != [] {
        assert !EscapeAt(rest[1..], 0) && !IsStart(rest[1]) && rest[1] != 45;
      }
    }
  }

  lemma IdentLikeGood(s: Text)
    requires IdentAt(s, 0) && Clean(s) && !IsBad(IdentLike(s).value)
    ensures Good(IdentLike(s).value)
  {
    hide Name;
    NameConsumes(s);
    NameScalars(s);
    var name := Name(s);
    if C(s, name.length) == 40 {
      var start := name.length + 1;
      UrlScalars(s[start + SpaceRun(s[start..])..]);
    }
  }

  lemma FirstGood(s: Text)
    requires s != [] && Clean(s) && !IsBad(First(s).value)
    ensures Good(First(s).value)
  {
    hide Name, NumberToken, IdentLike, StringBody, SpaceRun;
    var c := s[0];
    if IsSpace(c) {
      SpaceRunIs(s);
    } else if IsQuote(c) {
      StringScalars(s[1..], c);
    } else if c == 60 && C(s, 1) == 33 && C(s, 2) == 45 && C(s, 3) == 45 {
    } else if c == 45 && C(s, 1) == 45 && C(s, 2) == 62 {
    } else if NumericAt(s, 0) {
      NumberGood(s);
    } else if c == 35 && (IsName(C(s, 1)) || EscapeAt(s, 1)) {
      HashGood(s);
    } else if c == 64 && IdentAt(s, 1) {
      SuffixAt(s, 1);
      NameConsumes(s[1..]);
      NameScalars(s[1..]);
    } else if IdentAt(s, 0) {
      IdentLikeGood(s);
    } else {
      SymbolGood(s);
    }
  }

  lemma SymbolGood(s: Text)
    requires s != [] && Clean(s) && !IsSpace(s[0]) && !IsQuote(s[0]) && !NumericAt(s, 0) && !IdentAt(s, 0)
    ensures PlainSymbol(s[0])
  {
  }

  // ---- What follows a token ----

  lemma BackslashFollowed(s: Text)
    requires s != [] && First(s).value == Symbol(92)
    ensures First(s).length == 1 && C(s, 1) == 10
  {
    hide NumberToken, Name, StringBody;
    assert !IdentAt(s, 0) && s[0] == 92 by {
      if IdentAt(s, 0) {
        IdentLikeKind(s);
      }
      NumberKind(s);
    }
  }

  lemma IdentLikeKind(s: Text)
    ensures !IdentLike(s).value.Symbol?
  {
    hide Name;
  }

  lemma NumberKind(s: Text)
    ensures !NumberToken(s).value.Symbol? && !NumberToken(s).value.Function?
  {
    hide Name, NumberLength, IsInteger;
  }

  lemma SpaceThenTokens(s: Text)
    requires IsSpace(C(s, 0))
    ensures Tokens(s) != [] && Tokens(s)[0].Whitespace?
  {
  }

  lemma QuoteThenTokens(s: Text)
    requires IsQuote(C(s, 0))
    ensures Tokens(s) != [] && (Tokens(s)[0].String? || Tokens(s)[0].BadString?)
  {
    hide StringBody;
  }

  lemma UrlFollowed(s: Text)
    requires s != [] && First(s).value.Function? && IsUrlName(First(s).value.value)
    ensures var n := First(s).length; n <= |s| && IsQuote(C(s[n..], SpaceRun(s[n..])))
  {
    hide Name, NumberToken, StringBody, SpaceRun;
    NumberKind(s);
    FirstConsumes(s);
    var n := First(s).length;
    assert forall k: nat :: C(s[n..], k) == C(s, n + k);
  }

  lemma FirstFollows(s: Text, rest: seq<Token>)
    requires s != [] && 0 < First(s).length <= |s| && rest == Tokens(s[First(s).length..]) && NoBad(rest)
    ensures Follows(First(s).value, rest)
  {
    hide First, SpaceRun, Tokens;
    var t, r := First(s).value, s[First(s).length..];
    if t == Symbol(92) {
      BackslashFollowed(s);
      SpaceThenTokens(r);
    }
    if t.Function? && IsUrlName(t.value) {
      UrlFollowed(s);
      var k := SpaceRun(r);
      SpaceRunIs(r);
      if k == 0 {
        QuoteThenTokens(r);
      } else {
        assert IsSpace(r[..k][0]);
        FirstSpace(r);
        QuoteThenTokens(r[k..]);
        assert rest[0] == Whitespace(r[..k]) && rest[1..] == Tokens(r[k..]);
        assert rest[1] == Tokens(r[k..])[0];
      }
    }
  }

  /** The tokens of any preprocessed input, if none of them is bad, are read back from their text. */
  lemma {:induction false} TokensGood(s: Text)
    requires Clean(s) && NoBad(Tokens(s))
    ensures GoodSeq(Tokens(s))
    decreases |s|
  {
    hide First, CommentEnd, Good, Follows;
    if s == [] {
    } else if AtComment(s) {
      TokensGood(s[2 + CommentEnd(s[2..])..]);
    } else {
      FirstConsumes(s);
      var t, rest := First(s).value, Tokens(s[First(s).length..]);
      assert Tokens(s) == [t] + rest;
      assert !IsBad(Tokens(s)[0]);
      assert NoBad(rest) by {
        forall i | 0 <= i < |rest| ensures !IsBad(rest[i]) {
          assert rest[i] == Tokens(s)[i + 1];
        }
      }
      FirstGood(s);
      FirstFollows(s, rest);
      TokensGood(s[First(s).length..]);
      assert Tokens(s)[1..] == rest;
    }
  }

  // ---- The serialization is plain ----

  lemma {:induction false} HexPlain(c: nat)
    ensures Plain(HexDigits(c))
  {
    if c >= 16 {
      HexPlain(c / 16);
    }
  }

  lemma EscapePlain(c: nat)
    ensures Plain(Escape(c))
  {
    HexPlain(c);
  }

  lemma {:induction false} EscapesPlain(v: Text)
    ensures Plain(Escapes(v))
  {
    hide Escape;
    if v != [] {
      EscapePlain(v[0]);
      EscapesPlain(v[1..]);
      PlainConcat(Escape(v[0]), Escapes(v[1..]));
    }
  }

  lemma {:induction false} HashPlain(id: bool, v: Text, k: nat)
    requires k <= |v|
    ensures Plain(HashText(id, v, k))
    decreases |v| - k
  {
    hide Escape;
    if k < |v| {
      HashPlain(id, v, k + 1);
      EscapePlain(v[k]);
      var head := if RawInHash(id, v, k) then Utf16(v[k]) else Escape(v[k]);
      PlainConcat(head, HashText(id, v, k + 1));
    }
  }

  lemma TextPlain(t: Token)
    requires Good(t)
    ensures !IsBad(t) && Plain(TextOf(t))
  {
    hide Escapes, HashText, NumberLength, IsInteger, Utf16s;
    match t
    case Whitespace(v) => Utf16Ascii(v);
    case Number(text, _) => Utf16Ascii(text);
    case Percentage(text, _) => Utf16Ascii(text);
    case Dimension(text, _, v) =>
      Utf16Ascii(text);
      EscapesPlain(v);
    case Ident(v) => EscapesPlain(v);
    case Function(v) => EscapesPlain(v);
    case AtKeyword(v) => EscapesPlain(v);
    case Hash(v, id) => HashPlain(id, v, 0);
    case String(v) => EscapesPlain(v);
    case Url(v) => EscapesPlain(v);
    case _ =>
  }

  lemma {:induction false} SerialPlain(ts: seq<Token>, previous: bool)
    requires GoodSeq(ts) && NoBad(ts)
    ensures Plain(Serial(ts, previous))
  {
    hide TextOf, Good;
    if ts != [] {
      TextPlain(ts[0]);
      SerialPlain(ts[1..], !ts[0].Whitespace? && !ts[0].Function?);
      var text := TextOf(ts[0]) + Serial(ts[1..], !ts[0].Whitespace? && !ts[0].Function?);
      PlainConcat(TextOf(ts[0]), Serial(ts[1..], !ts[0].Whitespace? && !ts[0].Function?));
      PlainConcat(SEPARATOR, text);
    }
  }

  // ---- The theorem ----

  lemma {:induction false} CollapseShorter(ts: seq<Token>)
    requires GoodSeq(ts)
    ensures |Collapse(ts)| <= |ts|
  {
    hide Good;
    if ts != [] {
      CollapseShorter(ts[1..]);
      if ts[0] == Symbol(92) {
        CollapseHead(ts[1..]);
      }
    }
  }

  /**
   For every input without bad tokens whose serialization fits the input limit, tokenizing the
   serialization succeeds and gives the same tokens with white-space runs collapsed.
   */
  lemma RoundTrip(u: Text)
    requires Units(u) && Tokenize(u).Tokenized?
    requires var ts := Tokenize(u).tokens; NoBad(ts) && |Serialize(ts).units| <= INPUT_MAX
    ensures var ts := Tokenize(u).tokens;
      && Serialize(ts).Serialized? && Units(Serialize(ts).units)
      && Tokenize(Serialize(ts).units) == Tokenized(Collapse(ts))
  {
    hide Preprocess, Tokens, Serial;
    var ts := Tokenize(u).tokens;
    PreprocessIsClean(u);
    TokensGood(Preprocess(u));
    SerialPlain(ts, false);
    PreprocessOfPlain(Serial(ts, false));
    SerialReadsBack(ts, false);
    CollapseShorter(ts);
  }

  /** Tokens with all white-space runs reduced to one empty white-space token. */
  function Shape(ts: seq<Token>): seq<Token> {
    if ts == [] then []
    else
      var rest := Shape(ts[1..]);
      if !ts[0].Whitespace? then [ts[0]] + rest
      else if rest != [] && rest[0].Whitespace? then rest
      else [Whitespace([])] + rest
  }

  lemma ShapeHead(ts: seq<Token>)
    ensures ts == [] <==> Shape(ts) == []
    ensures ts != [] ==> Shape(ts)[0].Whitespace? == ts[0].Whitespace?
    ensures ts != [] && !ts[0].Whitespace? ==> Shape(ts)[0] == ts[0]
    ensures ts != [] && ts[0].Whitespace? ==> Shape(ts)[0] == Whitespace([])
  {
    if ts != [] && ts[0].Whitespace? {
      ShapeHead(ts[1..]);
    }
  }

  lemma MergeShape(v: Text, ts: seq<Token>)
    ensures Shape(Merge(v, ts)) == Shape([Whitespace(v)] + ts)
  {
    assert ([Whitespace(v)] + ts)[1..] == ts;
    if ts != [] && ts[0].Whitespace? {
      var m := Merge(v, ts);
      assert m[1..] == ts[1..];
      ShapeHead(ts);
    }
  }

  /** Collapsing keeps every token but white space, in order, and where white space stands. */
  lemma {:induction false} CollapseKeepsShape(ts: seq<Token>)
    requires GoodSeq(ts)
    ensures Shape(Collapse(ts)) == Shape(ts)
  {
    hide Good;
    if ts != [] {
      var rest := Collapse(ts[1..]);
      CollapseKeepsShape(ts[1..]);
      if ts[0].Whitespace? {
        MergeShape(ts[0].value, rest);
        assert ([ts[0]] + rest)[1..] == rest;
      } else if ts[0] == Symbol(92) {
        MergeShape([10], rest);
        CollapseHead(ts[1..]);
        ShapeHead(rest);
        assert ([Whitespace([10])] + rest)[1..] == rest;
        assert ([ts[0]] + Merge([10], rest))[1..] == Merge([10], rest);
      } else {
        assert ([ts[0]] + rest)[1..] == rest;
      }
    }
  }

  /** Kinds, flags, values, number texts and delimiters all survive. */
  lemma RoundTripKeepsShape(u: Text)
    requires Units(u) && Tokenize(u).Tokenized?
    requires var ts := Tokenize(u).tokens; NoBad(ts) && |Serialize(ts).units| <= INPUT_MAX
    ensures var again := Tokenize(Serialize(Tokenize(u).tokens).units);
      again.Tokenized? && Shape(again.tokens) == Shape(Tokenize(u).tokens)
  {
    hide Preprocess, Tokens, Serial;
    var ts := Tokenize(u).tokens;
    RoundTrip(u);
    PreprocessIsClean(u);
    TokensGood(Preprocess(u));
    CollapseKeepsShape(ts);
  }
}
