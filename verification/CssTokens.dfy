/**
 CSS tokens as functions of the remaining code points: sections 3.3 and 4.3 of CSS Syntax
 Module Level 3, as the bounded tokenizer implements them.
 */
module CssTokens {

  const INPUT_MAX := 32768
  const TOKEN_MAX := 4096
  const POOL_MAX := 131072
  const REPLACEMENT := 0xFFFD

  type Text = seq<nat>

  /** `Symbol` covers punctuation and delimiters: their kind is a function of the code point. */
  datatype Token =
    | Whitespace(value: Text)
    | Ident(value: Text)
    | Function(value: Text)
    | AtKeyword(value: Text)
    | Hash(value: Text, id: bool)
    | String(value: Text)
    | BadString
    | Url(value: Text)
    | BadUrl
    | Number(text: Text, integer: bool)
    | Percentage(text: Text, integer: bool)
    | Dimension(text: Text, integer: bool, value: Text)
    | Cdo
    | Cdc
    | Symbol(delim: nat)

  /** Code point `k`, or 0 past the end. */
  function C(s: Text, k: nat): nat { if k < |s| then s[k] else 0 }

  predicate IsSpace(c: nat) { c == 9 || c == 10 || c == 32 }
  predicate IsDigit(c: nat) { 48 <= c <= 57 }
  predicate IsHex(c: nat) { IsDigit(c) || 97 <= c <= 102 || 65 <= c <= 70 }
  function Lower(c: nat): nat { if 65 <= c <= 90 then c + 32 else c }
  predicate IsStart(c: nat) { 97 <= Lower(c) <= 122 || c == 95 || c >= 128 }
  predicate IsName(c: nat) { IsStart(c) || IsDigit(c) || c == 45 }
  predicate IsSign(c: nat) { c == 43 || c == 45 }

  predicate EscapeAt(s: Text, k: nat) { C(s, k) == 92 && C(s, k + 1) != 10 }

  predicate IdentAt(s: Text, k: nat) {
    if C(s, k) == 45 then IsStart(C(s, k + 1)) || C(s, k + 1) == 45 || EscapeAt(s, k + 1)
    else IsStart(C(s, k)) || EscapeAt(s, k)
  }

  predicate NumericAt(s: Text, k: nat) {
    var j := if IsSign(C(s, k)) then k + 1 else k;
    IsDigit(C(s, j)) || (C(s, j) == 46 && IsDigit(C(s, j + 1)))
  }

  // ---- Runs ----

  function SpaceRun(s: Text): (n: nat)
    ensures n <= |s|
  {
    if s != [] && IsSpace(s[0]) then 1 + SpaceRun(s[1..]) else 0
  }

  function DigitRun(s: Text): (n: nat)
    ensures n <= |s|
  {
    if s != [] && IsDigit(s[0]) then 1 + DigitRun(s[1..]) else 0
  }

  function HexRun(s: Text, limit: nat): (n: nat)
    ensures n <= |s| && n <= limit
  {
    if limit > 0 && s != [] && IsHex(s[0]) then 1 + HexRun(s[1..], limit - 1) else 0
  }

  function HexDigit(c: nat): nat
    requires IsHex(c)
  {
    var d := Lower(c);
    if IsDigit(d) then d - 48 else d - 97 + 10
  }

  function HexValue(s: Text): nat
    requires forall i :: 0 <= i < |s| ==> IsHex(s[i])
  {
    if s == [] then 0 else HexValue(s[..|s| - 1]) * 16 + HexDigit(s[|s| - 1])
  }

  lemma {:induction false} HexRunIsHex(s: Text, limit: nat)
    ensures forall i :: 0 <= i < HexRun(s, limit) ==> IsHex(s[i])
  {
    if limit > 0 && s != [] && IsHex(s[0]) {
      HexRunIsHex(s[1..], limit - 1);
      forall i | 0 < i < HexRun(s, limit) ensures IsHex(s[i]) {
        assert s[i] == s[1..][i - 1];
      }
    }
  }

  // ---- Escapes and names ----

  /** A value and the number of code points it was read from. */
  datatype Read<T> = Read(value: T, length: nat)

  predicate Scalar(v: nat) { v != 0 && v <= 0x10FFFF && !(0xD800 <= v <= 0xDFFF) }

  /** What follows a backslash, which is `s[0]`. */
  function Escaped(s: Text): (r: Read<nat>)
    requires s != []
    ensures 1 <= r.length <= |s|
  {
    if |s| == 1 then Read(REPLACEMENT, 1)
    else if IsHex(s[1]) then
      var n := HexRun(s[1..], 6);
      HexRunIsHex(s[1..], 6);
      var v := HexValue(s[1..][..n]);
      var length := if IsSpace(C(s, 1 + n)) then 2 + n else 1 + n;
      Read(if Scalar(v) then v else REPLACEMENT, length)
    else Read(s[1], 2)
  }

  function Name(s: Text): (r: Read<Text>)
    ensures r.length <= |s|
  {
    if s == [] then Read([], 0)
    else if IsName(s[0]) then
      var rest := Name(s[1..]);
      Read([s[0]] + rest.value, 1 + rest.length)
    else if EscapeAt(s, 0) then
      var e := Escaped(s);
      var rest := Name(s[e.length..]);
      Read([e.value] + rest.value, e.length + rest.length)
    else Read([], 0)
  }

  // ---- Strings and URLs ----

  datatype Quoted = Quoted(bad: bool, value: Text, length: nat)

  function Then(value: Text, length: nat, rest: Quoted): Quoted {
    Quoted(rest.bad, value + rest.value, length + rest.length)
  }

  /** The body of a string after its opening quote. */
  function StringBody(s: Text, quote: nat): (r: Quoted)
    ensures r.length <= |s|
  {
    if s == [] then Quoted(false, [], 0)
    else if s[0] == quote then Quoted(false, [], 1)
    else if s[0] == 10 then Quoted(true, [], 0)
    else if s[0] == 92 then
      if |s| == 1 then Quoted(false, [], 1)
      else if s[1] == 10 then Then([], 2, StringBody(s[2..], quote))
      else
        var e := Escaped(s);
        Then([e.value], e.length, StringBody(s[e.length..], quote))
    else Then([s[0]], 1, StringBody(s[1..], quote))
  }

  /** How far a broken URL reaches: up to and including the next unescaped closing parenthesis. */
  function BadUrlLength(s: Text): (n: nat)
    ensures n <= |s|
  {
    if s == [] then 0
    else if s[0] == 41 then 1
    else if EscapeAt(s, 0) then
      var e := Escaped(s);
      e.length + BadUrlLength(s[e.length..])
    else 1 + BadUrlLength(s[1..])
  }

  predicate NotInUrl(c: nat) {
    c == 34 || c == 39 || c == 40 || c <= 8 || c == 11 || 14 <= c <= 31 || c == 127
  }

  /** The body of a URL after `url(` and white space. */
  function UrlBody(s: Text): (r: Quoted)
    ensures r.length <= |s|
  {
    if s == [] then Quoted(false, [], 0)
    else if s[0] == 41 then Quoted(false, [], 1)
    else if IsSpace(s[0]) then
      var n := SpaceRun(s);
      if n == |s| then Quoted(false, [], n)
      else if s[n] == 41 then Quoted(false, [], n + 1)
      else Quoted(true, [], n + BadUrlLength(s[n..]))
    else if NotInUrl(s[0]) then Quoted(true, [], BadUrlLength(s))
    else if s[0] == 92 then
      if EscapeAt(s, 0) then
        var e := Escaped(s);
        Then([e.value], e.length, UrlBody(s[e.length..]))
      else Quoted(true, [], BadUrlLength(s))
    else Then([s[0]], 1, UrlBody(s[1..]))
  }

  // ---- Numbers ----

  function SignLength(s: Text): (n: nat)
    ensures n <= |s|
  {
    if IsSign(C(s, 0)) then 1 else 0
  }

  function FractionLength(s: Text): (n: nat)
    ensures n <= |s|
  {
    if C(s, 0) == 46 && IsDigit(C(s, 1)) then 2 + DigitRun(s[2..]) else 0
  }

  function ExponentLength(s: Text): (n: nat)
    ensures n <= |s|
  {
    if Lower(C(s, 0)) != 101 then 0
    else if IsSign(C(s, 1)) then (if IsDigit(C(s, 2)) then 3 + DigitRun(s[3..]) else 0)
    else if IsDigit(C(s, 1)) then 2 + DigitRun(s[2..]) else 0
  }

  /** Sign and digits, then fraction, then exponent. */
  function IntegerLength(s: Text): (n: nat)
    ensures n <= |s|
  {
    SignLength(s) + DigitRun(s[SignLength(s)..])
  }

  function NumberLength(s: Text): (n: nat)
    ensures n <= |s|
  {
    var a := IntegerLength(s);
    var b := a + FractionLength(s[a..]);
    b + ExponentLength(s[b..])
  }

  predicate IsInteger(s: Text) { NumberLength(s) == IntegerLength(s) }

  function NumberToken(s: Text): Read<Token> {
    var n := NumberLength(s);
    if IdentAt(s, n) then
      var unit := Name(s[n..]);
      Read(Dimension(s[..n], IsInteger(s), unit.value), n + unit.length)
    else if C(s, n) == 37 then Read(Percentage(s[..n], IsInteger(s)), n + 1)
    else Read(Number(s[..n], IsInteger(s)), n)
  }

  // ---- Tokens ----

  predicate IsUrlName(v: Text) {
    |v| == 3 && Lower(v[0]) == 117 && Lower(v[1]) == 114 && Lower(v[2]) == 108
  }

  predicate IsQuote(c: nat) { c == 34 || c == 39 }

  function UrlToken(s: Text, start: nat): Read<Token>
    requires start <= |s|
  {
    var open := start + SpaceRun(s[start..]);
    var body := UrlBody(s[open..]);
    Read(if body.bad then BadUrl else Url(body.value), open + body.length)
  }

  function IdentLike(s: Text): Read<Token> {
    var name := Name(s);
    if C(s, name.length) != 40 then Read(Ident(name.value), name.length)
    else
      var open := name.length + 1;
      if IsUrlName(name.value) && !IsQuote(C(s, open + SpaceRun(s[open..]))) then UrlToken(s, open)
      else Read(Function(name.value), open)
  }

  /** The first token of a non-empty input that does not start with a comment. */
  function First(s: Text): Read<Token>
    requires s != []
  {
    var c := s[0];
    if IsSpace(c) then Read(Whitespace(s[..SpaceRun(s)]), SpaceRun(s))
    else if IsQuote(c) then
      var body := StringBody(s[1..], c);
      Read(if body.bad then BadString else String(body.value), 1 + body.length)
    else if c == 60 && C(s, 1) == 33 && C(s, 2) == 45 && C(s, 3) == 45 then Read(Cdo, 4)
    else if c == 45 && C(s, 1) == 45 && C(s, 2) == 62 then Read(Cdc, 3)
    else if NumericAt(s, 0) then NumberToken(s)
    else if c == 35 && (IsName(C(s, 1)) || EscapeAt(s, 1)) then
      var name := Name(s[1..]);
      Read(Hash(name.value, IdentAt(s, 1)), 1 + name.length)
    else if c == 64 && IdentAt(s, 1) then
      var name := Name(s[1..]);
      Read(AtKeyword(name.value), 1 + name.length)
    else if IdentAt(s, 0) then IdentLike(s)
    else Read(Symbol(c), 1)
  }

  /** Position just after the first `*` `/` pair, or the end. */
  function CommentEnd(s: Text): (n: nat)
    ensures n <= |s|
  {
    if s == [] then 0
    else if s[0] == 42 && C(s, 1) == 47 then 2
    else 1 + CommentEnd(s[1..])
  }

  predicate AtComment(s: Text) { C(s, 0) == 47 && C(s, 1) == 42 }

  // ---- Every token consumes something ----

  lemma NumericConsumes(s: Text)
    requires NumericAt(s, 0)
    ensures 0 < NumberLength(s)
  {
    var a := SignLength(s);
    if IsDigit(C(s, a)) {
      assert s[a..][0] == s[a];
    } else {
      assert IntegerLength(s) == a;
      assert C(s[a..], 0) == C(s, a) && C(s[a..], 1) == C(s, a + 1);
    }
  }

  lemma NameConsumes(s: Text)
    requires IdentAt(s, 0) || (s != [] && IsName(s[0]))
    ensures s != [] && 0 < Name(s).length && Name(s).value != []
  {
  }

  lemma SuffixAt(s: Text, k: nat)
    requires k <= |s|
    ensures IdentAt(s, k) == IdentAt(s[k..], 0) && EscapeAt(s, k) == EscapeAt(s[k..], 0)
    ensures forall j :: C(s[k..], j) == C(s, k + j)
  {
  }

  lemma FirstConsumes(s: Text)
    requires s != []
    ensures 0 < First(s).length <= |s|
  {
    hide Name, NumberLength, StringBody, UrlBody, IsInteger, NumberToken, IdentLike, SpaceRun;
    if NumericAt(s, 0) {
      NumericConsumes(s);
      NumberTokenFits(s);
    }
    if IdentAt(s, 0) {
      NameConsumes(s);
      IdentLikeFits(s);
    }
    SpaceConsumes(s);
  }

  lemma SpaceConsumes(s: Text)
    requires s != []
    ensures IsSpace(s[0]) ==> SpaceRun(s) > 0
  {
  }

  lemma NumberTokenFits(s: Text)
    ensures NumberLength(s) <= NumberToken(s).length <= |s|
  {
    hide Name, NumberLength, IsInteger;
  }

  lemma IdentLikeFits(s: Text)
    ensures Name(s).length <= IdentLike(s).length <= |s|
  {
    hide Name, UrlBody, SpaceRun;
  }

  /** All tokens of the input; comments vanish. */
  function Tokens(s: Text): seq<Token> {
    if s == [] then []
    else if AtComment(s) then Tokens(s[2 + CommentEnd(s[2..])..])
    else
      FirstConsumes(s);
      [First(s).value] + Tokens(s[First(s).length..])
  }

  // ---- The input stream ----

  function Combine(high: nat, low: nat): nat
    requires 0xD800 <= high && 0xDC00 <= low
  {
    0x10000 + (high - 0xD800) * 1024 + (low - 0xDC00)
  }

  /** UTF-16 code units to code points: newlines unified, NUL and lone surrogates replaced. */
  function Preprocess(u: Text): Text {
    if u == [] then []
    else if u[0] == 13 then [10] + Preprocess(u[if C(u, 1) == 10 then 2 else 1..])
    else if u[0] == 12 then [10] + Preprocess(u[1..])
    else if 0xD800 <= u[0] <= 0xDBFF && 0xDC00 <= C(u, 1) <= 0xDFFF then [Combine(u[0], u[1])] + Preprocess(u[2..])
    else if u[0] == 0 || 0xD800 <= u[0] <= 0xDFFF then [REPLACEMENT] + Preprocess(u[1..])
    else [u[0]] + Preprocess(u[1..])
  }

  predicate Units(u: Text) { forall i :: 0 <= i < |u| ==> u[i] < 0x10000 }

  predicate Scalars(s: Text) { forall i :: 0 <= i < |s| ==> Scalar(s[i]) }

  datatype Result = Tokenized(tokens: seq<Token>) | LimitExceeded

  function Tokenize(u: Text): Result {
    if |u| > INPUT_MAX then LimitExceeded
    else
      var ts := Tokens(Preprocess(u));
      if |ts| > TOKEN_MAX then LimitExceeded else Tokenized(ts)
  }
}
