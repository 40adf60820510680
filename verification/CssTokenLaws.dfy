/**
 How texts of plain shape read: each lemma takes the code points of one lexeme, and of what
 follows it, and says which token they become.
 */
module CssTokenLaws {
  import opened CssTokens
  import opened CssVarRead

  // ---- Code points ----

  predicate Digit(c: nat) { '0' as nat <= c <= '9' as nat }
  predicate Letter(c: nat) { 'a' as nat <= c <= 'z' as nat || 'A' as nat <= c <= 'Z' as nat }
  predicate Starter(c: nat) { Letter(c) || c == '_' as nat || c >= 0x80 }
  predicate Follower(c: nat) { Starter(c) || Digit(c) || c == '-' as nat }
  predicate Blank(c: nat) { c == ' ' as nat || c == 9 || c == 10 }
  predicate HexCode(c: nat) { Digit(c) || 'a' as nat <= c <= 'f' as nat || 'A' as nat <= c <= 'F' as nat }

  /** The value of a hexadecimal digit. */
  function HexOf(c: nat): nat
    requires HexCode(c)
  {
    if Digit(c) then c - '0' as nat else if c >= 'a' as nat then c - 'a' as nat + 10 else c - 'A' as nat + 10
  }

  lemma ClassesAgree(c: nat)
    ensures IsDigit(c) == Digit(c) && IsStart(c) == Starter(c) && IsName(c) == Follower(c) && IsSpace(c) == Blank(c) && IsHex(c) == HexCode(c)
    ensures HexCode(c) ==> HexDigit(c) == HexOf(c)
  {
  }

  predicate AllDigits(s: Text) { forall i :: 0 <= i < |s| ==> Digit(s[i]) }
  predicate AllBlank(s: Text) { forall i :: 0 <= i < |s| ==> Blank(s[i]) }
  predicate AllFollow(s: Text) { forall i :: 0 <= i < |s| ==> Follower(s[i]) }
  predicate AllHex(s: Text) { forall i :: 0 <= i < |s| ==> HexCode(s[i]) }

  /** What follows cannot belong to a name: no name code point, no escape. */
  predicate NameEnds(rest: Text) { rest == [] || (!Follower(rest[0]) && rest[0] != '\\' as nat) }

  // ---- Runs ----

  lemma {:induction false} Blanks(w: Text, rest: Text)
    requires AllBlank(w) && (rest == [] || !Blank(rest[0]))
    ensures SpaceRun(w + rest) == |w|
  {
    if w == [] {
      assert w + rest == rest;
    } else {
      Blanks(w[1..], rest);
      assert (w + rest)[1..] == w[1..] + rest;
    }
  }

  lemma {:induction false} DigitsRun(d: Text, rest: Text)
    requires AllDigits(d) && (rest == [] || !Digit(rest[0]))
    ensures DigitRun(d + rest) == |d|
  {
    if d == [] {
      assert d + rest == rest;
    } else {
      DigitsRun(d[1..], rest);
      assert (d + rest)[1..] == d[1..] + rest;
    }
  }

  lemma {:induction false} NameRuns(n: Text, rest: Text)
    requires AllFollow(n) && NameEnds(rest)
    ensures CssTokens.Name(n + rest) == Read(n, |n|)
  {
    if n == [] {
      assert n + rest == rest;
    } else {
      NameRuns(n[1..], rest);
      assert (n + rest)[1..] == n[1..] + rest && [n[0]] + n[1..] == n;
    }
  }

  // ---- White space, names, functions ----

  /** A maximal run of blanks, tabs and newlines is one token. */
  lemma WhitespaceReads(w: Text, rest: Text)
    requires w != [] && AllBlank(w) && (rest == [] || !Blank(rest[0]))
    ensures Tokens(w + rest) == [Whitespace(w)] + Tokens(rest)
  {
    hide Tokens;
    Blanks(w, rest);
    assert (w + rest)[..|w|] == w;
    TokensFirst(w, rest, Whitespace(w));
  }

  /** How an identifier may begin: with a letter, underscore or non-ASCII, or after a hyphen with one of them or another hyphen. */
  predicate NameStart(n: Text) {
    n != [] && (Starter(n[0]) || (n[0] == '-' as nat && |n| > 1 && (Starter(n[1]) || n[1] == '-' as nat)))
  }

  lemma StartsName(n: Text, rest: Text)
    requires NameStart(n) && AllFollow(n)
    ensures IdentAt(n + rest, 0) && !NumericAt(n + rest, 0) && !AtComment(n + rest)
  {
    var s := n + rest;
    assert s[0] == n[0] && (|n| > 1 ==> s[1] == n[1]);
  }

  predicate SpellsUrl(n: Text) {
    && |n| == 3 && (n[0] == 'u' as nat || n[0] == 'U' as nat) && (n[1] == 'r' as nat || n[1] == 'R' as nat)
    && (n[2] == 'l' as nat || n[2] == 'L' as nat)
  }

  /** A name that no parenthesis follows is an identifier; `-->` alone is no name. */
  lemma IdentReads(n: Text, rest: Text)
    requires NameStart(n) && AllFollow(n) && NameEnds(rest) && (rest != [] ==> rest[0] != '(' as nat)
    requires n == ['-' as nat, '-' as nat] ==> rest == [] || rest[0] != '>' as nat
    ensures Tokens(n + rest) == [Ident(n)] + Tokens(rest)
  {
    hide Tokens, CssTokens.Name;
    var s := n + rest;
    NameRuns(n, rest);
    StartsName(n, rest);
    assert s[0] == n[0] && C(s, |n|) != 40;
    assert |n| > 1 ==> s[1] == n[1];
    assert |n| > 2 ==> s[2] == n[2];
    assert |n| == 2 && rest != [] ==> s[2] == rest[0];
    TokensFirst(n, rest, Ident(n));
  }

  /** A name with its parenthesis is a function, unless it is an unquoted `url(`. */
  lemma FunctionReads(n: Text, rest: Text)
    requires NameStart(n) && AllFollow(n) && !SpellsUrl(n)
    ensures Tokens(n + [40] + rest) == [Function(n)] + Tokens(rest)
  {
    hide Tokens, CssTokens.Name;
    var s := n + [40] + rest;
    assert s == n + ([40] + rest);
    NameRuns(n, [40] + rest);
    StartsName(n, [40] + rest);
    assert s[0] == n[0] && s[|n|] == 40;
    assert |n| > 1 ==> s[1] == n[1];
    assert |n| > 2 ==> s[2] == n[2];
    assert IsUrlName(n) ==> SpellsUrl(n);
    TokensFirst(n + [40], rest, Function(n));
  }

  /** `url(` in front of a quoted string is a function like any other. */
  lemma QuotedUrlReads(n: Text, w: Text, quote: nat, rest: Text)
    requires SpellsUrl(n) && AllBlank(w) && (quote == '"' as nat || quote == '\'' as nat)
    ensures Tokens(n + [40] + (w + ([quote] + rest))) == [Function(n)] + Tokens(w + ([quote] + rest))
  {
    hide Tokens, CssTokens.Name;
    var tail := w + ([quote] + rest);
    var s := n + [40] + tail;
    assert s == n + ([40] + tail);
    NameRuns(n, [40] + tail);
    StartsName(n, [40] + tail);
    assert s[0] == n[0] && s[1] == n[1] && s[3] == 40 && s[4..] == tail;
    Blanks(w, [quote] + rest);
    assert tail[|w|] == quote && s[4 + |w|] == quote;
    TokensFirst(n + [40], tail, Function(n));
  }

  /** An at-sign or a number sign takes the name behind it; a number sign notes whether it is an identifier. */
  lemma AtReads(n: Text, rest: Text)
    requires NameStart(n) && AllFollow(n) && NameEnds(rest)
    ensures Tokens([64] + n + rest) == [AtKeyword(n)] + Tokens(rest)
  {
    hide Tokens, CssTokens.Name;
    var s := [64] + n + rest;
    assert s[1..] == n + rest && s[0] == 64 && s[1] == n[0] && (|n| > 1 ==> s[2] == n[1]);
    NameRuns(n, rest);
    TokensFirst([64] + n, rest, AtKeyword(n));
  }

  lemma HashReads(n: Text, rest: Text)
    requires n != [] && AllFollow(n) && NameEnds(rest)
    ensures Tokens([35] + n + rest) == [Hash(n, NameStart(n))] + Tokens(rest)
  {
    hide Tokens, CssTokens.Name;
    var s := [35] + n + rest;
    assert s[1..] == n + rest && s[0] == 35 && s[1] == n[0];
    assert |n| > 1 ==> s[2] == n[1];
    assert |n| == 1 && rest != [] ==> s[2] == rest[0];
    NameRuns(n, rest);
    assert IdentAt(s, 1) == NameStart(n);
    TokensFirst([35] + n, rest, Hash(n, NameStart(n)));
  }

  // ---- Numbers ----

  predicate Sign(s: Text) { s == [] || s == ['+' as nat] || s == ['-' as nat] }

  /** Nothing, or a point and at least one digit. */
  predicate Fraction(s: Text) { s == [] || (|s| > 1 && s[0] == '.' as nat && AllDigits(s[1..])) }

  /** Nothing, or the letter e, a sign perhaps, and at least one digit. */
  predicate Exponent(s: Text) {
    s == [] || (|s| > 1 && (s[0] == 'e' as nat || s[0] == 'E' as nat)
                && ((Digit(s[1]) && AllDigits(s[1..])) || (|s| > 2 && (s[1] == '+' as nat || s[1] == '-' as nat) && AllDigits(s[2..]))))
  }

  predicate Numeral(sign: Text, whole: Text, fraction: Text, exponent: Text) {
    Sign(sign) && AllDigits(whole) && Fraction(fraction) && Exponent(exponent) && (whole != [] || fraction != [])
  }

  /** What follows does not continue the number: no digit, no point, no letter e. */
  predicate NumeralEnds(rest: Text) {
    rest == [] || (!Digit(rest[0]) && rest[0] != '.' as nat && rest[0] != 'e' as nat && rest[0] != 'E' as nat)
  }

  lemma ExponentRuns(exponent: Text, rest: Text)
    requires Exponent(exponent) && NumeralEnds(rest)
    ensures ExponentLength(exponent + rest) == |exponent|
    ensures FractionLength(exponent + rest) == 0 && C(exponent + rest, 0) != '.' as nat && !Digit(C(exponent + rest, 0))
  {
    var s := exponent + rest;
    if exponent == [] {
      assert s == rest;
    } else if Digit(exponent[1]) {
      assert s[0] == exponent[0] && s[1] == exponent[1] && s[2..] == exponent[2..] + rest;
      assert AllDigits(exponent[2..]) by { DropDigit(exponent[1..]); assert exponent[1..][1..] == exponent[2..]; }
      DigitsRun(exponent[2..], rest);
    } else {
      assert s[0] == exponent[0] && s[1] == exponent[1] && s[2] == exponent[2] && s[3..] == exponent[3..] + rest;
      assert Digit(exponent[2..][0]);
      assert AllDigits(exponent[3..]) by { DropDigit(exponent[2..]); assert exponent[2..][1..] == exponent[3..]; }
      DigitsRun(exponent[3..], rest);
    }
  }

  lemma DropDigit(d: Text)
    requires d != [] && AllDigits(d)
    ensures AllDigits(d[1..])
  {
  }

  lemma FractionRuns(fraction: Text, exponent: Text, rest: Text)
    requires Fraction(fraction) && Exponent(exponent) && NumeralEnds(rest)
    ensures FractionLength(fraction + (exponent + rest)) == |fraction|
    ensures !Digit(C(fraction + (exponent + rest), 0))
  {
    ExponentRuns(exponent, rest);
    var tail := exponent + rest;
    var s := fraction + tail;
    if fraction == [] {
      assert s == tail;
    } else {
      assert s[0] == fraction[0] && s[1] == fraction[1] && s[2..] == fraction[2..] + tail;
      assert Digit(fraction[1..][0]);
      assert AllDigits(fraction[2..]) by { DropDigit(fraction[1..]); assert fraction[1..][1..] == fraction[2..]; }
      DigitsRun(fraction[2..], tail);
    }
  }

  function Number4(sign: Text, whole: Text, fraction: Text, exponent: Text): Text { sign + (whole + (fraction + exponent)) }

  lemma Pieces(sign: Text, whole: Text, fraction: Text, exponent: Text, rest: Text)
    ensures Number4(sign, whole, fraction, exponent) + rest == sign + (whole + (fraction + (exponent + rest)))
  {
  }

  lemma NumeralLengths(sign: Text, whole: Text, fraction: Text, exponent: Text, rest: Text)
    requires Numeral(sign, whole, fraction, exponent) && NumeralEnds(rest)
    ensures var n := Number4(sign, whole, fraction, exponent);
      && NumberLength(n + rest) == |n| && (IsInteger(n + rest) <==> fraction == [] && exponent == [])
  {
    var s := Number4(sign, whole, fraction, exponent) + rest;
    Pieces(sign, whole, fraction, exponent, rest);
    hide Number4, DigitRun, FractionLength, ExponentLength;
    var t1 := fraction + (exponent + rest);
    var t0 := whole + t1;
    FractionRuns(fraction, exponent, rest);
    ExponentRuns(exponent, rest);
    DigitsRun(whole, t1);
    assert s[|sign|..] == t0 && t0[|whole|..] == t1 && t1[|fraction|..] == exponent + rest;
    SignRuns(sign, t0, whole, fraction);
    NumberParts(s, |sign|, |whole|, |fraction|, |exponent|);
    assert |Number4(sign, whole, fraction, exponent)| == |sign| + |whole| + |fraction| + |exponent| by { NumeralSize(sign, whole, fraction, exponent); }
  }

  lemma NumeralSize(sign: Text, whole: Text, fraction: Text, exponent: Text)
    ensures |Number4(sign, whole, fraction, exponent)| == |sign| + |whole| + |fraction| + |exponent|
  {
  }

  lemma SignRuns(sign: Text, tail: Text, whole: Text, fraction: Text)
    requires Sign(sign) && AllDigits(whole) && Fraction(fraction) && (whole != [] || fraction != []) && whole + fraction <= tail
    ensures SignLength(sign + tail) == |sign|
    ensures tail != [] && tail[0] == (if whole != [] then whole[0] else '.' as nat) && (whole == [] ==> |tail| > 1 && Digit(tail[1]))
  {
    assert tail[0] == (whole + fraction)[0];
    if whole == [] {
      assert tail[1] == fraction[1] == fraction[1..][0];
    }
  }

  lemma NumeralRuns(sign: Text, whole: Text, fraction: Text, exponent: Text, rest: Text)
    requires Numeral(sign, whole, fraction, exponent) && NumeralEnds(rest)
    ensures var n := Number4(sign, whole, fraction, exponent);
      && n != [] && NumericAt(n + rest, 0) && NumberLength(n + rest) == |n| && (n + rest)[..|n|] == n && (n + rest)[|n|..] == rest
      && (IsInteger(n + rest) <==> fraction == [] && exponent == [])
      && !Blank(n[0]) && !IsQuote(n[0]) && n[0] != 60 && !AtComment(n + rest)
      && !(n[0] == 45 && C(n + rest, 1) == 45)
  {
    NumeralLengths(sign, whole, fraction, exponent, rest);
    var n, tail := Number4(sign, whole, fraction, exponent), whole + (fraction + (exponent + rest));
    Pieces(sign, whole, fraction, exponent, rest);
    NumeralSize(sign, whole, fraction, exponent);
    hide Number4, NumberLength, IsInteger, Exponent;
    assert whole + fraction <= tail by { assert tail[..|whole + fraction|] == whole + fraction; }
    SignRuns(sign, tail, whole, fraction);
    NumeralLooks(sign, tail, n + rest);
    assert n[0] == (n + rest)[0];
  }

  lemma NumeralLooks(sign: Text, tail: Text, s: Text)
    requires Sign(sign) && tail != [] && (Digit(tail[0]) || (tail[0] == '.' as nat && |tail| > 1 && Digit(tail[1]))) && s == sign + tail
    ensures s != [] && NumericAt(s, 0) && !Blank(s[0]) && !IsQuote(s[0]) && s[0] != 60 && !AtComment(s) && !(s[0] == 45 && C(s, 1) == 45)
  {
    assert s[|sign|] == tail[0] && (|tail| > 1 ==> s[|sign| + 1] == tail[1]);
  }

  lemma NumberParts(s: Text, a: nat, b: nat, c: nat, d: nat)
    requires a + b + c + d <= |s| && SignLength(s) == a && DigitRun(s[a..]) == b
    requires FractionLength(s[a..][b..]) == c && ExponentLength(s[a..][b..][c..]) == d
    ensures IntegerLength(s) == a + b && NumberLength(s) == a + b + c + d
  {
    assert s[a..][b..] == s[a + b..] && s[a..][b..][c..] == s[a + b + c..];
  }

  /** A number that neither a per cent sign nor a name follows; it is an integer without fraction and exponent. */
  lemma NumberReads(sign: Text, whole: Text, fraction: Text, exponent: Text, rest: Text)
    requires Numeral(sign, whole, fraction, exponent) && NumeralEnds(rest)
    requires rest == [] || (rest[0] != '%' as nat && !Starter(rest[0]) && rest[0] != '-' as nat && rest[0] != '\\' as nat)
    ensures var n := Number4(sign, whole, fraction, exponent);
      Tokens(n + rest) == [Number(n, fraction == [] && exponent == [])] + Tokens(rest)
  {
    hide Tokens, Numeral, Number4, NumberLength, IsInteger;
    var n := Number4(sign, whole, fraction, exponent);
    NumeralRuns(sign, whole, fraction, exponent, rest);
    SuffixAt(n + rest, |n|);
    TokensFirst(n, rest, Number(n, fraction == [] && exponent == []));
  }

  lemma PercentageReads(sign: Text, whole: Text, fraction: Text, exponent: Text, rest: Text)
    requires Numeral(sign, whole, fraction, exponent)
    ensures var n := Number4(sign, whole, fraction, exponent);
      Tokens(n + [37] + rest) == [Percentage(n, fraction == [] && exponent == [])] + Tokens(rest)
  {
    hide Tokens, Numeral, Number4, NumberLength, IsInteger;
    var n := Number4(sign, whole, fraction, exponent);
    assert n + [37] + rest == n + ([37] + rest);
    NumeralRuns(sign, whole, fraction, exponent, [37] + rest);
    SuffixAt(n + ([37] + rest), |n|);
    TokensFirst(n + [37], rest, Percentage(n, fraction == [] && exponent == []));
  }

  /** A number with a unit; the unit must not read as an exponent. */
  lemma DimensionReads(sign: Text, whole: Text, fraction: Text, exponent: Text, unit: Text, rest: Text)
    requires Numeral(sign, whole, fraction, exponent) && NameStart(unit) && AllFollow(unit) && NameEnds(rest)
    requires unit[0] != 'e' as nat && unit[0] != 'E' as nat
    ensures var n := Number4(sign, whole, fraction, exponent);
      Tokens(n + unit + rest) == [Dimension(n, fraction == [] && exponent == [], unit)] + Tokens(rest)
  {
    hide Tokens, Numeral, Number4, NumberLength, IsInteger, CssTokens.Name;
    var n := Number4(sign, whole, fraction, exponent);
    assert n + unit + rest == n + (unit + rest);
    assert (unit + rest)[0] == unit[0];
    NumeralRuns(sign, whole, fraction, exponent, unit + rest);
    SuffixAt(n + (unit + rest), |n|);
    StartsName(unit, rest);
    NameRuns(unit, rest);
    TokensFirst(n + unit, rest, Dimension(n, fraction == [] && exponent == [], unit));
  }

  // ---- Escapes ----

  /** The value of hexadecimal digits, most significant first. */
  function HexNumber(h: Text): nat
    requires AllHex(h)
  {
    if h == [] then 0 else HexNumber(h[..|h| - 1]) * 16 + HexOf(h[|h| - 1])
  }

  /** No code point, a surrogate or beyond Unicode: the replacement stands for it. */
  function Meant(v: nat): nat { if v == 0 || v > 0x10FFFF || 0xD800 <= v <= 0xDFFF then 0xFFFD else v }

  lemma {:induction false} HexRuns(h: Text, rest: Text, limit: nat)
    requires AllHex(h) && |h| <= limit && (|h| == limit || rest == [] || !HexCode(rest[0]))
    ensures HexRun(h + rest, limit) == |h|
    decreases |h|
  {
    if h == [] {
      assert h + rest == rest;
    } else {
      HexRuns(h[1..], rest, limit - 1);
      assert (h + rest)[1..] == h[1..] + rest;
    }
  }

  lemma {:induction false} HexNumberIs(h: Text)
    requires AllHex(h)
    ensures (forall i :: 0 <= i < |h| ==> IsHex(h[i])) && HexValue(h) == HexNumber(h)
  {
    if h != [] {
      HexNumberIs(h[..|h| - 1]);
      ClassesAgree(h[|h| - 1]);
    }
  }

  /** A backslash and one to six hexadecimal digits are their number; one blank behind them belongs to them. */
  lemma HexEscapeReads(h: Text, w: Text, rest: Text)
    requires 0 < |h| <= 6 && AllHex(h) && |w| <= 1 && AllBlank(w)
    requires |h| == 6 || w != [] || rest == [] || !HexCode(rest[0])
    requires w != [] || rest == [] || !Blank(rest[0])
    ensures Escaped([92] + h + w + rest) == Read(Meant(HexNumber(h)), 1 + |h| + |w|)
  {
    hide HexRun, HexValue, HexNumber, Escaped;
    var tail := w + rest;
    var s := [92] + (h + tail);
    EscapePieces(h, w, rest);
    assert w != [] ==> tail[0] == w[0];
    assert w == [] ==> tail == rest;
    HexRuns(h, tail, 6);
    HexNumberIs(h);
    EscapeLooks(h, tail);
    EscapeOfHex(s, |h|);
    assert C(s, 1 + |h| + 0) == C(tail, 0);
  }

  lemma EscapePieces(h: Text, w: Text, rest: Text)
    ensures [92] + h + w + rest == [92] + (h + (w + rest))
  {
  }

  lemma EscapeOfHex(s: Text, n: nat)
    requires |s| > 1 && IsHex(s[1]) && HexRun(s[1..], 6) == n <= |s[1..]| && forall i :: 0 <= i < n ==> IsHex(s[1..][..n][i])
    ensures Escaped(s) == Read(Meant(HexValue(s[1..][..n])), if Blank(C(s, 1 + n)) then 2 + n else 1 + n)
  {
    hide HexRun, HexValue;
  }

  lemma EscapeLooks(h: Text, tail: Text)
    requires h != [] && AllHex(h)
    ensures var s := [92] + (h + tail);
      s[1..] == h + tail && s[1..][..|h|] == h && IsHex(s[1]) && |s| > 1 && forall k: nat :: C(s, 1 + |h| + k) == C(tail, k)
  {
    var s := [92] + (h + tail);
    assert s[1..] == h + tail && s[1] == h[0];
  }

  /** A backslash in front of anything but a newline or a hexadecimal digit is that code point. */
  lemma PlainEscapeReads(c: nat, rest: Text)
    requires !HexCode(c)
    ensures Escaped([92, c] + rest) == Read(c, 2)
  {
  }

  /** A name goes on behind an escape. */
  lemma EscapeInName(s: Text, rest: Text, c: nat, k: nat)
    requires s != [] && s[0] == 92 && EscapeAt(s, 0) && Escaped(s) == Read(c, k) && s[k..] == rest
    ensures CssTokens.Name(s) == Read([c] + CssTokens.Name(rest).value, k + CssTokens.Name(rest).length)
  {
  }

  // ---- Strings ----

  /** Neither the quote, nor a newline, nor a backslash. */
  predicate Unquoted(s: Text, quote: nat) { forall i :: 0 <= i < |s| ==> s[i] != quote && s[i] != 10 && s[i] != 92 }

  lemma {:induction false} BodyRuns(v: Text, quote: nat, rest: Text)
    requires Unquoted(v, quote)
    ensures StringBody(v + rest, quote) == Then(v, |v|, StringBody(rest, quote))
  {
    if v == [] {
      assert v + rest == rest;
      assert v + StringBody(rest, quote).value == StringBody(rest, quote).value;
    } else {
      assert v != [] && (v + rest)[1..] == v[1..] + rest && (v + rest)[0] == v[0];
      BodyRuns(v[1..], quote, rest);
      var tail := StringBody(rest, quote).value;
      assert [v[0]] + (v[1..] + tail) == v + tail;
    }
  }

  predicate Quote(c: nat) { c == '"' as nat || c == '\'' as nat }

  /** Up to the same quote again it is a string. */
  lemma StringReads(quote: nat, v: Text, rest: Text)
    requires Quote(quote) && Unquoted(v, quote)
    ensures Tokens([quote] + v + [quote] + rest) == [String(v)] + Tokens(rest)
  {
    hide Tokens;
    var s := [quote] + v + [quote] + rest;
    assert s[1..] == v + ([quote] + rest);
    BodyRuns(v, quote, [quote] + rest);
    assert v + [] == v;
    assert s == [quote] + v + [quote] + rest;
    TokensFirst([quote] + v + [quote], rest, String(v));
  }

  /** The end of the input closes a string; a newline makes it bad and is not part of it. */
  lemma OpenStringReads(quote: nat, v: Text)
    requires Quote(quote) && Unquoted(v, quote)
    ensures Tokens([quote] + v) == [String(v)]
  {
    hide Tokens;
    var s := [quote] + v;
    assert s[1..] == v + [];
    BodyRuns(v, quote, []);
    assert v + [] == v && s + [] == s;
    TokensFirst(s, [], String(v));
    EmptyReads();
  }

  lemma BadStringReads(quote: nat, v: Text, rest: Text)
    requires Quote(quote) && Unquoted(v, quote)
    ensures Tokens([quote] + v + [10] + rest) == [BadString] + Tokens([10] + rest)
  {
    hide Tokens;
    var s := [quote] + v + [10] + rest;
    assert s[1..] == v + ([10] + rest) && s == [quote] + v + ([10] + rest);
    BodyRuns(v, quote, [10] + rest);
    TokensFirst([quote] + v, [10] + rest, BadString);
  }

  /** Inside a string an escaped newline vanishes, any other escape is its code point. */
  lemma EscapeInString(quote: nat, rest: Text)
    requires Quote(quote)
    ensures StringBody([92, 10] + rest, quote) == Then([], 2, StringBody(rest, quote))
  {
    assert ([92, 10] + rest)[2..] == rest;
  }

  lemma CodeInString(s: Text, quote: nat, rest: Text, c: nat, k: nat)
    requires Quote(quote) && |s| > 1 && s[0] == 92 && s[1] != 10 && Escaped(s) == Read(c, k) && s[k..] == rest
    ensures StringBody(s, quote) == Then([c], k, StringBody(rest, quote))
  {
  }

  // ---- Unquoted URLs ----

  /** No blank, quote, parenthesis, backslash or control code. */
  predicate UrlCodes(v: Text) {
    forall i :: 0 <= i < |v| ==> v[i] > 32 && v[i] != 34 && v[i] != 39 && v[i] != 40 && v[i] != 41 && v[i] != 92 && v[i] != 127
  }

  lemma {:induction false} UrlRuns(v: Text, rest: Text)
    requires UrlCodes(v)
    ensures UrlBody(v + rest) == Then(v, |v|, UrlBody(rest))
  {
    if v == [] {
      assert v + rest == rest;
      assert v + UrlBody(rest).value == UrlBody(rest).value;
    } else {
      assert (v + rest)[1..] == v[1..] + rest && (v + rest)[0] == v[0];
      UrlRuns(v[1..], rest);
      var tail := UrlBody(rest).value;
      assert [v[0]] + (v[1..] + tail) == v + tail;
    }
  }

  /** `url(`, blanks, the address, blanks, `)`. */
  lemma UrlReads(n: Text, w: Text, v: Text, x: Text, rest: Text)
    requires SpellsUrl(n) && AllBlank(w) && AllBlank(x) && UrlCodes(v) && v != []
    ensures Tokens(n + [40] + w + v + x + [41] + rest) == [Url(v)] + Tokens(rest)
  {
    hide Tokens, CssTokens.Name, UrlBody, SpaceRun;
    var body := v + (x + ([41] + rest));
    var s := n + [40] + w + v + x + [41] + rest;
    UrlPieces(n, w, v, x, rest);
    NameRuns(n, [40] + (w + body));
    StartsName(n, [40] + (w + body));
    assert s[0] == n[0] && s[1] == n[1] && s[3] == 40 && s[4..] == w + body;
    assert body[0] == v[0] && s[4 + |w|] == v[0];
    Blanks(w, body);
    assert s[4 + |w|..] == body;
    UrlRuns(v, x + ([41] + rest));
    UrlCloses(x, rest);
    assert v + [] == v;
    TokensFirst(n + [40] + w + v + x + [41], rest, Url(v));
  }

  lemma UrlPieces(n: Text, w: Text, v: Text, x: Text, rest: Text)
    ensures n + [40] + w + v + x + [41] + rest == n + ([40] + (w + (v + (x + ([41] + rest)))))
  {
  }

  lemma UrlCloses(x: Text, rest: Text)
    requires AllBlank(x)
    ensures UrlBody(x + ([41] + rest)) == Quoted(false, [], |x| + 1)
  {
    var s := x + ([41] + rest);
    Blanks(x, [41] + rest);
    assert s[|x|] == 41;
    assert x != [] ==> s[0] == x[0];
  }

  /** What may not stand in a URL makes it bad, up to the next closing parenthesis. */
  lemma BadUrlReads(n: Text, v: Text, c: nat, x: Text, rest: Text)
    requires SpellsUrl(n) && UrlCodes(v) && v != [] && (c == 34 || c == 39 || c == 40 || c < 9 || c == 11 || 14 <= c < 32 || c == 127)
    requires forall i :: 0 <= i < |x| ==> x[i] != 41 && x[i] != 92
    ensures Tokens(n + [40] + v + [c] + x + [41] + rest) == [BadUrl] + Tokens(rest)
  {
    hide Tokens, CssTokens.Name, UrlBody, SpaceRun, BadUrlLength;
    var tail := [c] + (x + ([41] + rest));
    var s := n + [40] + v + [c] + x + [41] + rest;
    BadPieces(n, v, c, x, rest);
    NameRuns(n, [40] + (v + tail));
    StartsName(n, [40] + (v + tail));
    assert s[0] == n[0] && s[1] == n[1] && s[3] == 40 && s[4..] == v + tail;
    assert [] + (v + tail) == v + tail && (v + tail)[0] == v[0] && s[4] == v[0];
    Blanks([], v + tail);
    UrlRuns(v, tail);
    BadTail(c, x, rest);
    TokensFirst(n + [40] + v + [c] + x + [41], rest, BadUrl);
  }

  lemma BadPieces(n: Text, v: Text, c: nat, x: Text, rest: Text)
    ensures n + [40] + v + [c] + x + [41] + rest == n + ([40] + (v + ([c] + (x + ([41] + rest)))))
  {
  }

  lemma BadTail(c: nat, x: Text, rest: Text)
    requires c == 34 || c == 39 || c == 40 || c < 9 || c == 11 || 14 <= c < 32 || c == 127
    requires forall i :: 0 <= i < |x| ==> x[i] != 41 && x[i] != 92
    ensures UrlBody([c] + (x + ([41] + rest))) == Quoted(true, [], |x| + 2)
  {
    var s := [c] + (x + ([41] + rest));
    assert s[1..] == x + ([41] + rest);
    BadRuns(x, rest);
  }

  lemma {:induction false} BadRuns(x: Text, rest: Text)
    requires forall i :: 0 <= i < |x| ==> x[i] != 41 && x[i] != 92
    ensures BadUrlLength(x + ([41] + rest)) == |x| + 1
  {
    if x == [] {
      assert x + ([41] + rest) == [41] + rest;
    } else {
      assert (x + ([41] + rest))[1..] == x[1..] + ([41] + rest);
      BadRuns(x[1..], rest);
    }
  }

  // ---- The rest ----

  /** Comments vanish; one that is not closed takes the rest of the input. */
  lemma CommentReads(x: Text, rest: Text)
    requires forall i :: 0 <= i < |x| ==> x[i] != 42
    ensures Tokens([47, 42] + x + [42, 47] + rest) == Tokens(rest)
    ensures Tokens([47, 42] + x) == []
  {
    var s := [47, 42] + x + [42, 47] + rest;
    assert s[2..] == x + ([42, 47] + rest);
    CommentRuns(x, [42, 47] + rest);
    assert s[2 + |x| + 2..] == rest;
    var o := [47, 42] + x;
    assert o[2..] == x + [];
    CommentRuns(x, []);
    assert x + [] == x && o[|o|..] == [];
  }

  lemma {:induction false} CommentRuns(x: Text, rest: Text)
    requires forall i :: 0 <= i < |x| ==> x[i] != 42
    ensures CommentEnd(x + rest) == |x| + CommentEnd(rest)
  {
    if x == [] {
      assert x + rest == rest;
    } else {
      assert (x + rest)[1..] == x[1..] + rest;
      CommentRuns(x[1..], rest);
    }
  }

  /** The two HTML comment marks. */
  lemma MarksRead(rest: Text)
    ensures Tokens([60, 33, 45, 45] + rest) == [Cdo] + Tokens(rest)
    ensures Tokens([45, 45, 62] + rest) == [Cdc] + Tokens(rest)
  {
    hide Tokens;
    TokensFirst([60, 33, 45, 45], rest, Cdo);
    TokensFirst([45, 45, 62], rest, Cdc);
  }

  /** ASCII punctuation that begins nothing longer stands for itself. */
  lemma PunctuationReads(c: nat, rest: Text)
    requires c in {33, 36, 37, 38, 40, 41, 42, 44, 58, 59, 61, 62, 63, 91, 93, 94, 96, 123, 124, 125, 126}
    ensures Tokens([c] + rest) == [Symbol(c)] + Tokens(rest)
  {
    hide Tokens, NumberToken, IdentLike, StringBody, SpaceRun, CssTokens.Name;
    TokensFirst([c], rest, Symbol(c));
  }

  /** More than 32768 units or 4096 tokens are too many; anything else is tokenized. */
  lemma TokenizeLimits(u: Text)
    ensures Tokenize(u) == if |u| > 32768 || |Tokens(Preprocess(u))| > 4096 then LimitExceeded else Tokenized(Tokens(Preprocess(u)))
  {
  }
}
