/**
 The tokenizer and the serializer as the program runs them: a cursor over the code points, a
 pool that collects values, a growing token list, and a writer that appends code units.
 */
module CssLexer {
  import opened CssTokens
  import opened CssSerialize

  // ---- One step of each reader, at a cursor position ----

  lemma Suffix(s: Text, i: nat, k: nat)
    requires i + k <= |s|
    ensures s[i..][k..] == s[i + k..]
    ensures forall j: nat :: C(s[i..], j) == C(s, i + j)
  {
  }

  /** Looking ahead from a position and from the start of the rest is the same. */
  lemma SameLook(s: Text, i: nat)
    requires i < |s|
    ensures s[i..][1..] == s[i + 1..] && s[i..][0] == s[i]
    ensures C(s[i..], 1) == C(s, i + 1) && C(s[i..], 2) == C(s, i + 2) && C(s[i..], 3) == C(s, i + 3)
    ensures (C(s, i + 2) == 62 ==> i + 3 <= |s|) && (C(s, i + 3) == 45 ==> i + 4 <= |s|)
    ensures NumericAt(s[i..], 0) == NumericAt(s, i) && IdentAt(s[i..], 0) == IdentAt(s, i)
    ensures IdentAt(s[i..], 1) == IdentAt(s, i + 1) && EscapeAt(s[i..], 1) == EscapeAt(s, i + 1)
  {
    Suffix(s, i, 1);
  }

  lemma NameAt(s: Text, i: nat)
    requires i < |s|
    ensures IsName(s[i]) ==> Name(s[i..]) == Read([s[i]] + Name(s[i + 1..]).value, 1 + Name(s[i + 1..]).length)
    ensures !IsName(s[i]) && EscapeAt(s, i) ==>
      var e := Escaped(s[i..]);
      Name(s[i..]) == Read([e.value] + Name(s[i + e.length..]).value, e.length + Name(s[i + e.length..]).length)
    ensures !IsName(s[i]) && !EscapeAt(s, i) ==> Name(s[i..]) == Read([], 0)
  {
    hide Escaped;
    Suffix(s, i, 1);
    Suffix(s, i, Escaped(s[i..]).length);
  }

  lemma BadUrlEnds(s: Text, i: nat)
    requires i <= |s| && (i == |s| || s[i] == 41)
    ensures BadUrlLength(s[i..]) == if i == |s| then 0 else 1
  {
  }

  lemma BadUrlAt(s: Text, i: nat)
    requires i < |s| && s[i] != 41
    ensures EscapeAt(s, i) ==> BadUrlLength(s[i..]) == Escaped(s[i..]).length + BadUrlLength(s[i + Escaped(s[i..]).length..])
    ensures !EscapeAt(s, i) ==> BadUrlLength(s[i..]) == 1 + BadUrlLength(s[i + 1..])
  {
    hide Escaped;
    Suffix(s, i, 1);
    Suffix(s, i, Escaped(s[i..]).length);
  }

  /** The cases in which a URL body ends. */
  lemma UrlEndsAt(s: Text, i: nat)
    requires i <= |s|
    ensures i == |s| ==> UrlBody(s[i..]) == Quoted(false, [], 0)
    ensures i < |s| && s[i] == 41 ==> UrlBody(s[i..]) == Quoted(false, [], 1)
    ensures i < |s| && IsSpace(s[i]) ==>
      var n := SpaceRun(s[i..]);
      UrlBody(s[i..]) == if i + n == |s| then Quoted(false, [], n)
                         else if s[i + n] == 41 then Quoted(false, [], n + 1)
                         else Quoted(true, [], n + BadUrlLength(s[i + n..]))
    ensures i < |s| && !IsSpace(s[i]) && s[i] != 41 && (NotInUrl(s[i]) || (s[i] == 92 && !EscapeAt(s, i))) ==>
      UrlBody(s[i..]) == Quoted(true, [], BadUrlLength(s[i..]))
  {
    hide Escaped, BadUrlLength;
    Suffix(s, i, 0);
    Suffix(s, i, SpaceRun(s[i..]));
  }

  lemma UrlAt(s: Text, i: nat)
    requires i < |s| && !IsSpace(s[i]) && s[i] != 41 && !NotInUrl(s[i]) && (s[i] == 92 ==> EscapeAt(s, i))
    ensures s[i] != 92 ==> UrlBody(s[i..]) == Then([s[i]], 1, UrlBody(s[i + 1..]))
    ensures s[i] == 92 ==>
      var e := Escaped(s[i..]); UrlBody(s[i..]) == Then([e.value], e.length, UrlBody(s[i + e.length..]))
  {
    hide Escaped, BadUrlLength;
    Suffix(s, i, 1);
    Suffix(s, i, Escaped(s[i..]).length);
  }

  lemma StringEndsAt(s: Text, i: nat, quote: nat)
    requires i <= |s|
    ensures i == |s| ==> StringBody(s[i..], quote) == Quoted(false, [], 0)
    ensures i < |s| && s[i] == quote ==> StringBody(s[i..], quote) == Quoted(false, [], 1)
    ensures i < |s| && s[i] != quote && s[i] == 10 ==> StringBody(s[i..], quote) == Quoted(true, [], 0)
    ensures i + 1 == |s| && s[i] != quote && s[i] == 92 ==> StringBody(s[i..], quote) == Quoted(false, [], 1)
  {
    hide Escaped;
  }

  lemma StringAt(s: Text, i: nat, quote: nat)
    requires i < |s| && s[i] != quote && s[i] != 10 && !(s[i] == 92 && i + 1 == |s|)
    ensures s[i] != 92 ==> StringBody(s[i..], quote) == Then([s[i]], 1, StringBody(s[i + 1..], quote))
    ensures s[i] == 92 && s[i + 1] == 10 ==> StringBody(s[i..], quote) == Then([], 2, StringBody(s[i + 2..], quote))
    ensures s[i] == 92 && s[i + 1] != 10 ==>
      var e := Escaped(s[i..]); StringBody(s[i..], quote) == Then([e.value], e.length, StringBody(s[i + e.length..], quote))
  {
    hide Escaped;
    Suffix(s, i, 1);
    if s[i] == 92 {
      Suffix(s, i, 2);
    }
    Suffix(s, i, Escaped(s[i..]).length);
  }

  lemma ThenAssoc(a: Text, m: nat, b: Text, n: nat, rest: Quoted)
    ensures Then(a, m, Then(b, n, rest)) == Then(a + b, m + n, rest)
  {
  }

  lemma ThenNothing(rest: Quoted)
    ensures Then([], 0, rest) == rest
  {
  }

  lemma IdentLikeAt(s: Text, i: nat)
    requires i <= |s|
    ensures var name := Name(s[i..]);
      var at := i + name.length;
      && (C(s, at) != 40 ==> IdentLike(s[i..]) == Read(Ident(name.value), name.length))
      && (C(s, at) == 40 ==>
            var open := at + 1 + SpaceRun(s[at + 1..]);
            if IsUrlName(name.value) && !IsQuote(C(s, open)) then
              var body := UrlBody(s[open..]);
              IdentLike(s[i..]) == Read(if body.bad then BadUrl else Url(body.value), open + body.length - i)
            else IdentLike(s[i..]) == Read(Function(name.value), name.length + 1))
  {
    hide Name, UrlBody, SpaceRun;
    var n := Name(s[i..]).length;
    Suffix(s, i, n);
    if C(s, i + n) == 40 {
      Suffix(s, i, n + 1);
      Suffix(s, i, n + 1 + SpaceRun(s[i + n + 1..]));
    }
  }

  lemma TokensAt(s: Text, i: nat)
    requires i < |s|
    ensures C(s, i) == 47 && C(s, i + 1) == 42 ==>
      AtComment(s[i..]) && Tokens(s[i..]) == Tokens(s[i + 2 + CommentEnd(s[i..][2..])..])
    ensures !(C(s, i) == 47 && C(s, i + 1) == 42) ==>
      && 0 < First(s[i..]).length <= |s| - i
      && Tokens(s[i..]) == [First(s[i..]).value] + Tokens(s[i + First(s[i..]).length..])
  {
    hide First, CommentEnd;
    Suffix(s, i, 0);
    if AtComment(s[i..]) {
      Suffix(s, i, 2 + CommentEnd(s[i..][2..]));
    } else {
      FirstConsumes(s[i..]);
      Suffix(s, i, First(s[i..]).length);
    }
  }

  lemma PreprocessAt(u: Text, i: nat)
    requires i < |u|
    ensures u[i] == 13 ==> Preprocess(u[i..]) == [10] + Preprocess(u[if C(u, i + 1) == 10 then i + 2 else i + 1..])
    ensures u[i] == 12 ==> Preprocess(u[i..]) == [10] + Preprocess(u[i + 1..])
    ensures 0xD800 <= u[i] <= 0xDBFF && 0xDC00 <= C(u, i + 1) <= 0xDFFF ==>
      Preprocess(u[i..]) == [Combine(u[i], u[i + 1])] + Preprocess(u[i + 2..])
    ensures u[i] == 0 || (0xD800 <= u[i] <= 0xDFFF && !(u[i] <= 0xDBFF && 0xDC00 <= C(u, i + 1) <= 0xDFFF)) ==>
      Preprocess(u[i..]) == [REPLACEMENT] + Preprocess(u[i + 1..])
    ensures u[i] != 0 && u[i] != 12 && u[i] != 13 && !(0xD800 <= u[i] <= 0xDFFF) ==>
      Preprocess(u[i..]) == [u[i]] + Preprocess(u[i + 1..])
  {
    Suffix(u, i, 1);
    if i + 1 < |u| {
      Suffix(u, i, 2);
    }
  }

  class Lexer {
    const s: Text
    var i: nat
    var pool: Text
    var tokens: seq<Token>

    constructor (s: Text)
      ensures this.s == s && i == 0 && pool == [] && tokens == []
    {
      this.s, i, pool, tokens := s, 0, [], [];
    }

    /** The pool never outgrows the text consumed, so its own limit is out of reach. */
    predicate Valid()
      reads this
    {
      |pool| <= i <= |s| <= INPUT_MAX
    }

    function Rest(): Text
      requires i <= |s|
      reads this
    {
      s[i..]
    }

    method Put(c: nat)
      requires |pool| < |s| <= INPUT_MAX
      modifies this`pool
      ensures pool == old(pool) + [c]
    {
      if |pool| + 1 > POOL_MAX {
        assert false;
      }
      pool := pool + [c];
    }

    /** Up to six hexadecimal digits. */
    method ReadHex() returns (v: nat)
      requires Valid()
      modifies this`i
      ensures Valid() && i == old(i) + HexRun(old(Rest()), 6)
      ensures (forall j :: 0 <= j < HexRun(old(Rest()), 6) ==> IsHex(old(Rest())[j]))
              && v == HexValue(old(Rest())[..HexRun(old(Rest()), 6)])
    {
      v := 0;
      var k := 0;
      ghost var hex := s[i..];
      HexRunIsHex(hex, 6);
      assert hex[..0] == [];
      while k < 6 && IsHex(C(s, i))
        invariant k <= 6 && i == old(i) + k && Valid()
        invariant k <= HexRun(hex, 6) && HexRun(hex, 6) == k + HexRun(s[i..], 6 - k)
        invariant forall j :: 0 <= j < k ==> IsHex(hex[j])
        invariant v == HexValue(hex[..k])
      {
        assert s[i..][1..] == s[i + 1..];
        assert hex[k] == s[i] && hex[..k + 1][..k] == hex[..k];
        v := v * 16 + HexDigit(s[i]);
        i := i + 1;
        k := k + 1;
      }
    }

    /** Reads an escape; the cursor is on its backslash. */
    method ReadEscape() returns (v: nat)
      requires Valid() && i < |s|
      modifies this`i
      ensures Valid() && v == Escaped(old(Rest())).value && i == old(i) + Escaped(old(Rest())).length
    {
      hide HexRun, HexValue;
      Suffix(s, i, 1);
      i := i + 1;
      if i == |s| {
        return REPLACEMENT;
      }
      var c := s[i];
      if IsHex(c) {
        v := ReadHex();
        assert C(old(Rest()), i - old(i)) == C(s, i);
        if IsSpace(C(s, i)) {
          i := i + 1;
        }
        if !Scalar(v) {
          v := REPLACEMENT;
        }
        return;
      }
      i := i + 1;
      return c;
    }

    method ReadName()
      requires Valid()
      modifies this`i, this`pool
      ensures Valid() && pool == old(pool) + Name(old(Rest())).value && i == old(i) + Name(old(Rest())).length
    {
      hide Escaped, Name, EscapeAt;
      ghost var all := Name(s[i..]);
      ghost var value: Text := [];
      assert all.value == value + all.value;
      while i < |s|
        invariant Valid() && old(i) <= i && pool == old(pool) + value
        invariant all.value == value + Name(s[i..]).value && all.length == i - old(i) + Name(s[i..]).length
      {
        NameAt(s, i);
        var c := s[i];
        if IsName(c) {
          Put(c);
          i := i + 1;
          value := value + [c];
        } else if EscapeAt(s, i) {
          var v := ReadEscape();
          Put(v);
          value := value + [v];
        } else {
          break;
        }
      }
      assert Name(s[i..]) == Read([], 0) by { NameStops(s, i); }
    }

    method SkipSpace()
      requires Valid()
      modifies this`i
      ensures Valid() && i == old(i) + SpaceRun(old(Rest()))
    {
      while i < |s| && IsSpace(s[i])
        invariant Valid() && old(i) <= i && SpaceRun(old(Rest())) == i - old(i) + SpaceRun(s[i..])
      {
        assert s[i..][1..] == s[i + 1..];
        i := i + 1;
      }
    }

    method SkipDigits()
      requires Valid()
      modifies this`i
      ensures Valid() && i == old(i) + DigitRun(old(Rest()))
    {
      while i < |s| && IsDigit(s[i])
        invariant Valid() && old(i) <= i && DigitRun(old(Rest())) == i - old(i) + DigitRun(s[i..])
      {
        assert s[i..][1..] == s[i + 1..];
        i := i + 1;
      }
    }

    /** Skips the remains of a broken URL. */
    method SkipBadUrl()
      requires Valid()
      modifies this`i
      ensures Valid() && i == old(i) + BadUrlLength(old(Rest()))
    {
      hide Escaped, EscapeAt, BadUrlLength;
      while i < |s|
        invariant Valid() && old(i) <= i && BadUrlLength(old(Rest())) == i - old(i) + BadUrlLength(s[i..])
      {
        if s[i] == 41 {
          BadUrlEnds(s, i);
          i := i + 1;
          return;
        }
        BadUrlAt(s, i);
        if EscapeAt(s, i) {
          var v := ReadEscape();
        } else {
          i := i + 1;
        }
      }
      BadUrlEnds(s, i);
    }

    /** The body of a URL; false when the URL is bad. */
    method ReadUrl() returns (ok: bool)
      requires Valid()
      modifies this`i, this`pool
      ensures Valid() && i == old(i) + UrlBody(old(Rest())).length && ok == !UrlBody(old(Rest())).bad
      ensures ok ==> pool == old(pool) + UrlBody(old(Rest())).value
    {
      hide Escaped, BadUrlLength, UrlBody, EscapeAt, SpaceRun;
      ghost var all := UrlBody(s[i..]);
      ghost var value: Text := [];
      ThenNothing(all);
      while true
        invariant Valid() && old(i) <= i && pool == old(pool) + value
        invariant all == Then(value, i - old(i), UrlBody(s[i..]))
        decreases |s| - i
      {
        UrlEndsAt(s, i);
        if i == |s| {
          return true;
        }
        var c := s[i];
        if c == 41 {
          i := i + 1;
          return true;
        }
        if IsSpace(c) {
          SkipSpace();
          if i == |s| {
            return true;
          }
          if s[i] == 41 {
            i := i + 1;
            return true;
          }
          SkipBadUrl();
          return false;
        }
        if NotInUrl(c) || (c == 92 && !EscapeAt(s, i)) {
          SkipBadUrl();
          return false;
        }
        UrlAt(s, i);
        ghost var from := i;
        var v := c;
        if c == 92 {
          v := ReadEscape();
        } else {
          i := i + 1;
        }
        Put(v);
        ThenAssoc(value, from - old(i), [v], i - from, UrlBody(s[i..]));
        value := value + [v];
      }
    }

    /** The body of a string after its opening quote; false when it is bad. */
    method ReadString(quote: nat) returns (ok: bool)
      requires Valid()
      modifies this`i, this`pool
      ensures Valid() && i == old(i) + StringBody(old(Rest()), quote).length && ok == !StringBody(old(Rest()), quote).bad
      ensures ok ==> pool == old(pool) + StringBody(old(Rest()), quote).value
    {
      hide Escaped, StringBody, EscapeAt;
      ghost var all := StringBody(s[i..], quote);
      ghost var value: Text := [];
      ThenNothing(all);
      while true
        invariant Valid() && old(i) <= i && pool == old(pool) + value
        invariant all == Then(value, i - old(i), StringBody(s[i..], quote))
        decreases |s| - i
      {
        StringEndsAt(s, i, quote);
        if i == |s| {
          return true;
        }
        var c := s[i];
        if c == quote {
          i := i + 1;
          return true;
        }
        if c == 10 {
          return false;
        }
        if c == 92 && i + 1 >= |s| {
          i := i + 1;
          return true;
        }
        StringAt(s, i, quote);
        ghost var from := i;
        if c == 92 && s[i + 1] == 10 {
          i := i + 2;
          ThenAssoc(value, from - old(i), [], 2, StringBody(s[i..], quote));
          assert value + [] == value;
          continue;
        }
        var v := c;
        if c == 92 {
          v := ReadEscape();
        } else {
          i := i + 1;
        }
        Put(v);
        ThenAssoc(value, from - old(i), [v], i - from, StringBody(s[i..], quote));
        value := value + [v];
      }
    }

    // ---- Numbers ----

    method ReadInteger()
      requires Valid()
      modifies this`i
      ensures Valid() && i == old(i) + IntegerLength(old(Rest()))
    {
      hide DigitRun;
      Suffix(s, i, SignLength(s[i..]));
      if IsSign(C(s, i)) {
        i := i + 1;
      }
      SkipDigits();
    }

    method ReadFraction()
      requires Valid()
      modifies this`i
      ensures Valid() && i == old(i) + FractionLength(old(Rest()))
    {
      hide DigitRun;
      Suffix(s, i, 0);
      if C(s, i) == 46 && IsDigit(C(s, i + 1)) {
        Suffix(s, i, 2);
        i := i + 2;
        SkipDigits();
      }
    }

    method ReadExponent()
      requires Valid()
      modifies this`i
      ensures Valid() && i == old(i) + ExponentLength(old(Rest()))
    {
      hide DigitRun;
      Suffix(s, i, 0);
      var c, k := Lower(C(s, i)), i + 1;
      if IsSign(C(s, k)) {
        k := k + 1;
      }
      if c == 101 && IsDigit(C(s, k)) {
        Suffix(s, i, k + 1 - i);
        i := k + 1;
        SkipDigits();
      }
    }

    /** Copies the text from `begin` to the cursor into the pool. */
    method Copy(begin: nat)
      requires begin <= i <= |s| <= INPUT_MAX && |pool| <= begin
      modifies this`pool
      ensures Valid() && pool == old(pool) + s[begin..i]
    {
      for k := begin to i
        invariant pool == old(pool) + s[begin..k]
      {
        Put(s[k]);
        assert s[begin..k + 1] == s[begin..k] + [s[k]];
      }
    }

    method ReadNumber() returns (integer: bool)
      requires Valid()
      modifies this`i, this`pool
      ensures Valid() && i == old(i) + NumberLength(old(Rest())) && integer == IsInteger(old(Rest()))
      ensures pool == old(pool) + old(Rest())[..NumberLength(old(Rest()))]
    {
      hide IntegerLength, FractionLength, ExponentLength;
      var begin := i;
      ghost var a := IntegerLength(s[i..]);
      Suffix(s, i, a);
      ReadInteger();
      var whole := i;
      ghost var f := FractionLength(s[i..]);
      Suffix(s, begin, a + f);
      ReadFraction();
      ReadExponent();
      integer := i == whole;
      assert s[begin..i] == old(Rest())[..i - begin];
      Copy(begin);
    }

    method ReadNumeric() returns (t: Token)
      requires Valid() && i < |s|
      modifies this`i, this`pool
      ensures Valid() && t == NumberToken(old(Rest())).value && i == old(i) + NumberToken(old(Rest())).length
    {
      hide NumberLength, IsInteger, Name;
      var base := |pool|;
      ghost var n := NumberLength(s[i..]);
      Suffix(s, i, n);
      SuffixAt(s[i..], n);
      var integer := ReadNumber();
      var text := pool[base..];
      Suffix(s, i, 0);
      if IdentAt(s, i) {
        var unit := |pool|;
        ReadName();
        return Dimension(text, integer, pool[unit..]);
      }
      if C(s, i) == 37 {
        i := i + 1;
        return Percentage(text, integer);
      }
      return Number(text, integer);
    }

    // ---- Identifiers, functions and URLs ----

    method ReadIdentLike() returns (t: Token)
      requires Valid()
      modifies this`i, this`pool
      ensures Valid() && t == IdentLike(old(Rest())).value && i == old(i) + IdentLike(old(Rest())).length
    {
      hide Name, UrlBody, SpaceRun, IdentLike;
      var base := |pool|;
      IdentLikeAt(s, i);
      ReadName();
      var name := pool[base..];
      if C(s, i) != 40 {
        return Ident(name);
      }
      i := i + 1;
      if IsUrlName(name) {
        var open := i;
        SkipSpace();
        if !IsQuote(C(s, i)) {
          var value := |pool|;
          var ok := ReadUrl();
          return if ok then Url(pool[value..]) else BadUrl;
        }
        i := open;
      }
      return Function(name);
    }

    // ---- Tokens ----

    method ReadToken() returns (t: Token)
      requires Valid() && i < |s|
      modifies this`i, this`pool
      ensures Valid() && t == First(old(Rest())).value && i == old(i) + First(old(Rest())).length
    {
      hide Name, NumberToken, IdentLike, StringBody, SpaceRun, NumericAt, IdentAt, EscapeAt, IsName, IsSpace, IsQuote, C;
      SameLook(s, i);
      var c, base := s[i], |pool|;
      if IsSpace(c) {
        var begin := i;
        SkipSpace();
        Copy(begin);
        return Whitespace(pool[base..]);
      }
      if IsQuote(c) {
        i := i + 1;
        var ok := ReadString(c);
        return if ok then String(pool[base..]) else BadString;
      }
      if c == 60 && C(s, i + 1) == 33 && C(s, i + 2) == 45 && C(s, i + 3) == 45 {
        i := i + 4;
        return Cdo;
      }
      if c == 45 && C(s, i + 1) == 45 && C(s, i + 2) == 62 {
        i := i + 3;
        return Cdc;
      }
      if NumericAt(s, i) {
        t := ReadNumeric();
        return;
      }
      if c == 35 && (IsName(C(s, i + 1)) || EscapeAt(s, i + 1)) {
        var id := IdentAt(s, i + 1);
        i := i + 1;
        ReadName();
        return Hash(pool[base..], id);
      }
      if c == 64 && IdentAt(s, i + 1) {
        i := i + 1;
        ReadName();
        return AtKeyword(pool[base..]);
      }
      if IdentAt(s, i) {
        t := ReadIdentLike();
        return;
      }
      i := i + 1;
      return Symbol(c);
    }

    method SkipComment()
      requires Valid() && AtComment(Rest())
      modifies this`i
      ensures Valid() && i == old(i) + 2 + CommentEnd(old(Rest())[2..])
    {
      hide CommentEnd;
      Suffix(s, i, 2);
      i := i + 2;
      ghost var body := s[i..];
      while i < |s| && !(C(s, i) == 42 && C(s, i + 1) == 47)
        invariant Valid() && old(i) + 2 <= i && CommentEnd(body) == i - old(i) - 2 + CommentEnd(s[i..])
      {
        CommentStep(s, i);
        i := i + 1;
      }
      CommentStep(s, i);
      if i < |s| {
        i := i + 2;
      }
    }

    /** The main loop; false when the token limit is exceeded. */
    method Run() returns (ok: bool)
      requires Valid() && i == 0 && tokens == []
      modifies this
      ensures ok <==> |Tokens(s)| <= TOKEN_MAX
      ensures ok ==> tokens == Tokens(s)
    {
      hide First, CommentEnd, Tokens;
      assert s[0..] == s;
      while i < |s|
        invariant Valid() && |tokens| <= TOKEN_MAX && Tokens(s) == tokens + Tokens(s[i..])
      {
        TokensAt(s, i);
        if C(s, i) == 47 && C(s, i + 1) == 42 {
          SkipComment();
        } else {
          var t := ReadToken();
          if |tokens| + 1 > TOKEN_MAX {
            return false;
          }
          tokens := tokens + [t];
        }
      }
      assert Tokens(s[i..]) == [] by { NoTokens(s[i..]); }
      ok := true;
    }
  }

  lemma CommentStep(s: Text, i: nat)
    requires i <= |s|
    ensures CommentEnd(s[i..]) ==
      if i == |s| then 0 else if C(s, i) == 42 && C(s, i + 1) == 47 then 2 else 1 + CommentEnd(s[i + 1..])
  {
    if i < |s| {
      Suffix(s, i, 1);
    }
  }

  lemma NoTokens(s: Text)
    requires s == []
    ensures Tokens(s) == []
  {
  }

  lemma NameStops(s: Text, i: nat)
    requires i <= |s| && (i == |s| || (!IsName(s[i]) && !EscapeAt(s, i)))
    ensures Name(s[i..]) == Read([], 0)
  {
    Suffix(s, i, 0);
  }

  // ---- The whole tokenizer ----

  method Decode(u: Text) returns (s: Text)
    ensures s == Preprocess(u)
  {
    hide Preprocess;
    s := [];
    var i := 0;
    assert u[0..] == u;
    while i < |u|
      invariant i <= |u| && Preprocess(u) == s + Preprocess(u[i..])
    {
      PreprocessAt(u, i);
      var c := u[i];
      i := i + 1;
      if c == 13 {
        if i < |u| && u[i] == 10 {
          i := i + 1;
        }
        c := 10;
      } else if c == 12 {
        c := 10;
      } else if 0xD800 <= c <= 0xDBFF && i < |u| && 0xDC00 <= u[i] <= 0xDFFF {
        c := Combine(c, u[i]);
        i := i + 1;
      } else if c == 0 || 0xD800 <= c <= 0xDFFF {
        c := REPLACEMENT;
      }
      s := s + [c];
    }
    assert Preprocess(u[i..]) == [] by { NothingToDecode(u[i..]); }
  }

  lemma NothingToDecode(u: Text)
    requires u == []
    ensures Preprocess(u) == []
  {
  }

  lemma {:induction false} PreprocessShorter(u: Text)
    ensures |Preprocess(u)| <= |u|
  {
    if u != [] {
      PreprocessShorter(u[1..]);
      if |u| > 1 {
        PreprocessShorter(u[2..]);
      }
    }
  }

  method TokenizeInput(u: Text) returns (r: Result)
    ensures r == Tokenize(u)
  {
    hide Tokens, Preprocess;
    if |u| > INPUT_MAX {
      return LimitExceeded;
    }
    var s := Decode(u);
    PreprocessShorter(u);
    var lexer := new Lexer(s);
    var ok := lexer.Run();
    r := if ok then Tokenized(lexer.tokens) else LimitExceeded;
  }

  // ---- The serializer ----

  class Writer {
    var units: Text

    constructor ()
      ensures units == []
    {
      units := [];
    }

    method Emit(c: nat)
      modifies this
      ensures units == old(units) + Utf16(c)
    {
      if c > 0xFFFF {
        var d := c - 0x10000;
        units := units + [(0xD800 + d / 1024) % 0x10000, 0xDC00 + d % 1024];
      } else {
        units := units + [c];
      }
    }

    method EmitAll(v: Text)
      modifies this
      ensures units == old(units) + Utf16s(v)
    {
      assert v[0..] == v;
      for k := 0 to |v|
        invariant units + Utf16s(v[k..]) == old(units) + Utf16s(v)
      {
        assert v[k..][1..] == v[k + 1..];
        Emit(v[k]);
      }
      assert v[|v|..] == [];
    }

    /** Digits are collected lowest first and written highest first. */
    method EmitEscape(c: nat)
      modifies this
      ensures units == old(units) + Escape(c)
    {
      var digits: Text := [HexChar(c % 16)];
      var left := c / 16;
      while left > 0
        invariant 0 <= left
        invariant HexDigits(c) == if left == 0 then digits else HexDigits(left) + digits
      {
        digits := [HexChar(left % 16)] + digits;
        left := left / 16;
      }
      units := units + ([92] + digits + [32]);
    }

    method EmitEscapes(v: Text)
      modifies this
      ensures units == old(units) + Escapes(v)
    {
      hide Escape;
      assert v[0..] == v;
      for k := 0 to |v|
        invariant units + Escapes(v[k..]) == old(units) + Escapes(v)
      {
        assert v[k..][1..] == v[k + 1..];
        EmitEscape(v[k]);
      }
      assert v[|v|..] == [];
    }

    method EmitHash(v: Text, id: bool)
      modifies this
      ensures units == old(units) + HashText(id, v, 0)
    {
      hide Escape;
      for k: nat := 0 to |v|
        invariant units + HashText(id, v, k) == old(units) + HashText(id, v, 0)
      {
        if !id && (IsDigit(v[k]) || (k == 0 && v[k] == 45)) {
          Emit(v[k]);
        } else {
          EmitEscape(v[k]);
        }
      }
    }

    method EmitNumber(t: Token)
      requires t.Number? || t.Percentage? || t.Dimension?
      modifies this
      ensures units == old(units) + TextOf(t)
    {
      hide Escapes, Utf16s;
      EmitAll(t.text);
      if t.Percentage? {
        Emit(37);
      }
      if t.Dimension? {
        EmitEscapes(t.value);
      }
    }

    method EmitName(t: Token)
      requires t.Ident? || t.Function? || t.AtKeyword? || t.Hash?
      modifies this
      ensures units == old(units) + TextOf(t)
    {
      hide Escapes, HashText;
      if t.AtKeyword? {
        Emit(64);
      }
      if t.Hash? {
        Emit(35);
        EmitHash(t.value, t.id);
      } else {
        EmitEscapes(t.value);
      }
      if t.Function? {
        Emit(40);
      }
    }

    method EmitQuoted(t: Token)
      requires t.String? || t.Url?
      modifies this
      ensures units == old(units) + TextOf(t)
    {
      hide Escapes;
      if t.String? {
        Emit(34);
        EmitEscapes(t.value);
        Emit(34);
        assert units == old(units) + ([34] + Escapes(t.value) + [34]);
      } else {
        units := units + [117, 114, 108, 40];
        EmitEscapes(t.value);
        Emit(41);
        assert units == old(units) + ([117, 114, 108, 40] + Escapes(t.value) + [41]);
      }
    }

    method EmitToken(t: Token)
      requires !IsBad(t)
      modifies this
      ensures units == old(units) + TextOf(t)
    {
      if t.Whitespace? {
        EmitAll(t.value);
      } else if t.Number? || t.Percentage? || t.Dimension? {
        EmitNumber(t);
      } else if t.Ident? || t.Function? || t.AtKeyword? || t.Hash? {
        EmitName(t);
      } else if t.String? || t.Url? {
        EmitQuoted(t);
      } else if t.Cdo? {
        units := units + [60, 33, 45, 45];
      } else if t.Cdc? {
        units := units + [45, 45, 62];
      } else {
        Emit(t.delim);
        if t.delim == 92 {
          Emit(10);
        }
      }
    }

    /** One pass over the tokens; false when a bad token stops it. */
    method Pass(ts: seq<Token>) returns (ok: bool)
      requires units == []
      modifies this
      ensures ok == Serialize(ts).Serialized?
      ensures ok ==> units == Serialize(ts).units
    {
      hide TextOf;
      var previous := false;
      assert ts[0..] == ts;
      for i := 0 to |ts|
        invariant forall k :: 0 <= k < i ==> !IsBad(ts[k])
        invariant NoBad(ts) ==> NoBad(ts[i..]) && Serial(ts, false) == units + Serial(ts[i..], previous)
      {
        var t := ts[i];
        if IsBad(t) {
          return false;
        }
        assert ts[i..][1..] == ts[i + 1..];
        if previous && !t.Whitespace? {
          units := units + SEPARATOR;
        }
        previous := !t.Whitespace? && !t.Function?;
        EmitToken(t);
      }
      assert ts[|ts|..] == [];
      ok := true;
    }
  }

  datatype WriteResult = Refused | Needs(count: nat) | TooSmall(count: nat) | Written(units: Text)

  datatype Buffer = NoBuffer | Capacity(units: nat)

  /** Measures first, then writes only if everything fits. */
  method WriteTokens(ts: seq<Token>, buffer: Buffer) returns (r: WriteResult)
    ensures r == match Serialize(ts)
                 case Unsupported => Refused
                 case Serialized(units) =>
                   if buffer.NoBuffer? then Needs(|units|)
                   else if buffer.units < |units| then TooSmall(|units|) else Written(units)
  {
    var measure := new Writer();
    var ok := measure.Pass(ts);
    if !ok {
      return Refused;
    }
    var count := |measure.units|;
    match buffer
    case NoBuffer => return Needs(count);
    case Capacity(units) =>
      if units < count {
        return TooSmall(count);
      }
      var writer := new Writer();
      var _ := writer.Pass(ts);
      return Written(writer.units);
  }
}
