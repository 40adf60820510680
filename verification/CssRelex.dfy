/**
 Every token that the tokenizer produces is read back from its own text.
 */
module CssRelex {
  import opened CssTokens
  import opened CssSerialize

  // ---- Escapes ----

  lemma HexCharIs(d: nat)
    requires d < 16
    ensures IsHex(HexChar(d)) && HexDigit(HexChar(d)) == d
  {
  }

  lemma {:induction false} HexDigitsValue(c: nat)
    ensures HexValue(HexDigits(c)) == c
  {
    if c < 16 {
      HexCharIs(c);
      assert HexValue(HexDigits(c)[..0]) == 0;
    } else {
      HexDigitsValue(c / 16);
      HexCharIs(c % 16);
      var r := HexDigits(c);
      assert r[..|r| - 1] == HexDigits(c / 16);
    }
  }

  function Pow16(n: nat): nat { if n == 0 then 1 else 16 * Pow16(n - 1) }

  lemma {:induction false} HexDigitsShort(c: nat, n: nat)
    requires n > 0 && c < Pow16(n)
    ensures |HexDigits(c)| <= n
  {
    if c >= 16 {
      assert n > 1;
      HexDigitsShort(c / 16, n - 1);
    }
  }

  lemma {:induction false} HexRunOfDigits(d: Text, rest: Text, limit: nat)
    requires |d| <= limit && (forall i :: 0 <= i < |d| ==> IsHex(d[i])) && !IsHex(C(rest, 0))
    ensures HexRun(d + rest, limit) == |d|
  {
    if d == [] {
      assert d + rest == rest;
    } else {
      assert (d + rest)[1..] == d[1..] + rest;
      HexRunOfDigits(d[1..], rest, limit - 1);
    }
  }

  /** Reading an escape gives back the escaped code point and stops right behind it. */
  lemma EscapeReadsBack(c: nat, rest: Text)
    requires Scalar(c)
    ensures Escaped(Escape(c) + rest) == Read(c, |Escape(c)|)
    ensures EscapeAt(Escape(c) + rest, 0) && C(Escape(c) + rest, 0) == 92
  {
    var d := HexDigits(c);
    var s := Escape(c) + rest;
    assert Pow16(6) == 0x100_0000 by { assert Pow16(3) == 0x1000; }
    HexDigitsShort(c, 6);
    HexDigitsValue(c);
    assert s[1..] == d + ([32] + rest);
    HexRunOfDigits(d, [32] + rest, 6);
    assert s[1..][..|d|] == d;
    assert s[1] == d[0] && s[1 + |d|] == 32;
  }

  /** What may follow a name without becoming part of it. */
  predicate EndsName(rest: Text) { !IsName(C(rest, 0)) && !EscapeAt(rest, 0) }

  lemma NameStep(c: nat, tail: Text)
    requires Scalar(c)
    ensures Name(Escape(c) + tail) == Read([c] + Name(tail).value, |Escape(c)| + Name(tail).length)
  {
    hide Escape, Escaped;
    EscapeReadsBack(c, tail);
    assert (Escape(c) + tail)[|Escape(c)|..] == tail;
  }

  lemma Assoc(a: Text, b: Text, c: Text)
    ensures a + b + c == a + (b + c)
  {
  }

  lemma {:induction false} NameReadsBack(v: Text, rest: Text)
    requires Scalars(v) && EndsName(rest)
    ensures Name(Escapes(v) + rest) == Read(v, |Escapes(v)|)
  {
    hide Escape;
    if v == [] {
      assert Escapes(v) + rest == rest;
    } else {
      hide Name;
      NameReadsBack(v[1..], rest);
      Assoc(Escape(v[0]), Escapes(v[1..]), rest);
      NameStep(v[0], Escapes(v[1..]) + rest);
      assert v == [v[0]] + v[1..];
    }
  }

  lemma {:induction false} HashReadsBack(id: bool, v: Text, k: nat, rest: Text)
    requires k <= |v| && Scalars(v) && EndsName(rest)
    ensures Name(HashText(id, v, k) + rest) == Read(v[k..], |HashText(id, v, k)|)
    decreases |v| - k
  {
    hide Escape;
    if k == |v| {
      assert HashText(id, v, k) + rest == rest;
    } else {
      HashReadsBack(id, v, k + 1, rest);
      var tail := HashText(id, v, k + 1) + rest;
      assert v[k..] == [v[k]] + v[k + 1..];
      if RawInHash(id, v, k) {
        Assoc([v[k]], HashText(id, v, k + 1), rest);
        assert ([v[k]] + tail)[1..] == tail;
      } else {
        hide Name;
        Assoc(Escape(v[k]), HashText(id, v, k + 1), rest);
        NameStep(v[k], tail);
      }
    }
  }

  lemma StringStep(c: nat, tail: Text)
    requires Scalar(c)
    ensures StringBody(Escape(c) + tail, 34) == Then([c], |Escape(c)|, StringBody(tail, 34))
  {
    hide Escape, Escaped;
    EscapeReadsBack(c, tail);
    assert (Escape(c) + tail)[|Escape(c)|..] == tail;
    EscapeLong(c);
  }

  lemma EscapeLong(c: nat)
    ensures |Escape(c)| >= 3
  {
  }

  lemma {:induction false} StringReadsBack(v: Text, end: Text)
    requires Scalars(v) && C(end, 0) == 34
    ensures StringBody(Escapes(v) + end, 34) == Quoted(false, v, |Escapes(v)| + 1)
  {
    hide Escape;
    if v == [] {
      assert Escapes(v) + end == end;
    } else {
      hide StringBody;
      StringReadsBack(v[1..], end);
      Assoc(Escape(v[0]), Escapes(v[1..]), end);
      StringStep(v[0], Escapes(v[1..]) + end);
      assert v == [v[0]] + v[1..];
    }
  }

  lemma UrlStep(c: nat, tail: Text)
    requires Scalar(c)
    ensures UrlBody(Escape(c) + tail) == Then([c], |Escape(c)|, UrlBody(tail))
  {
    hide Escape, Escaped;
    EscapeReadsBack(c, tail);
    assert (Escape(c) + tail)[|Escape(c)|..] == tail;
    EscapeLong(c);
  }

  lemma {:induction false} UrlReadsBack(v: Text, end: Text)
    requires Scalars(v) && C(end, 0) == 41
    ensures UrlBody(Escapes(v) + end) == Quoted(false, v, |Escapes(v)| + 1)
  {
    hide Escape;
    if v == [] {
      assert Escapes(v) + end == end;
    } else {
      hide UrlBody;
      UrlReadsBack(v[1..], end);
      Assoc(Escape(v[0]), Escapes(v[1..]), end);
      UrlStep(v[0], Escapes(v[1..]) + end);
      assert v == [v[0]] + v[1..];
    }
  }

  // ---- Numbers ----

  predicate AllDigits(d: Text) { forall i :: 0 <= i < |d| ==> IsDigit(d[i]) }

  lemma {:induction false} DigitRunIs(s: Text)
    ensures AllDigits(s[..DigitRun(s)]) && !IsDigit(C(s, DigitRun(s)))
  {
    if s != [] && IsDigit(s[0]) {
      DigitRunIs(s[1..]);
      var n := DigitRun(s);
      assert s[..n] == [s[0]] + s[1..][..n - 1];
      assert C(s, n) == C(s[1..], n - 1);
    }
  }

  lemma {:induction false} DigitRunOf(d: Text, rest: Text)
    requires AllDigits(d) && !IsDigit(C(rest, 0))
    ensures DigitRun(d + rest) == |d|
  {
    if d == [] {
      assert d + rest == rest;
    } else {
      assert (d + rest)[1..] == d[1..] + rest;
      DigitRunOf(d[1..], rest);
    }
  }

  /** What may follow a number without becoming part of it. */
  predicate EndsNumber(rest: Text) {
    var c := C(rest, 0);
    !IsDigit(c) && c != 46 && Lower(c) != 101 && !IsSign(c)
  }

  /** A digit run keeps its length when everything from some later point on is replaced. */
  lemma DigitRunCut(s: Text, n: nat, rest: Text)
    requires DigitRun(s) <= n <= |s| && EndsNumber(rest)
    ensures DigitRun(s[..n] + rest) == DigitRun(s)
  {
    var k := DigitRun(s);
    DigitRunIs(s);
    var tail := s[k..n] + rest;
    assert s[..n] + rest == s[..k] + tail;
    assert k < n ==> C(tail, 0) == C(s, k);
    assert k == n ==> tail == rest;
    DigitRunOf(s[..k], tail);
  }

  lemma CutAt(s: Text, n: nat, rest: Text, k: nat)
    requires k <= n <= |s|
    ensures (s[..n] + rest)[k..] == s[k..][..n - k] + rest
    ensures forall j: nat :: j < n ==> C(s[..n] + rest, j) == C(s, j)
    ensures C(s[..n] + rest, n) == C(rest, 0)
  {
  }

  lemma ExponentCut(s: Text, n: nat, rest: Text)
    requires n <= |s| && n == ExponentLength(s) && EndsNumber(rest)
    ensures ExponentLength(s[..n] + rest) == n
  {
    CutAt(s, n, rest, 0);
    if n > 0 {
      var m := if IsSign(C(s, 1)) then 3 else 2;
      CutAt(s, n, rest, m);
      DigitRunCut(s[m..], n - m, rest);
    }
  }

  lemma FractionCut(s: Text, n: nat, rest: Text)
    requires FractionLength(s) <= n <= |s| && EndsNumber(rest)
    requires n == FractionLength(s) + ExponentLength(s[FractionLength(s)..])
    ensures FractionLength(s[..n] + rest) == FractionLength(s)
  {
    var f := FractionLength(s);
    CutAt(s, n, rest, 0);
    if f > 0 {
      CutAt(s, n, rest, 2);
      DigitRunCut(s[2..], n - 2, rest);
    } else {
      assert s[f..] == s;
      if n > 0 {
        assert Lower(C(s, 0)) == 101;
      } else {
        assert s[..n] + rest == rest;
      }
    }
  }

  lemma IntegerCut(s: Text, n: nat, rest: Text)
    requires n == NumberLength(s) && EndsNumber(rest)
    ensures IntegerLength(s[..n] + rest) == IntegerLength(s)
  {
    var a := SignLength(s);
    CutAt(s, n, rest, 0);
    if n == 0 {
      assert s[..n] + rest == rest;
      assert SignLength(rest) == 0;
      assert rest[0..] == rest;
    } else {
      CutAt(s, n, rest, a);
      DigitRunCut(s[a..], n - a, rest);
    }
  }

  /** The text of a number is read back in full, with the same type, before anything that ends it. */
  lemma NumberReadsBack(s: Text, rest: Text)
    requires EndsNumber(rest)
    ensures var n := NumberLength(s); NumberLength(s[..n] + rest) == n && IsInteger(s[..n] + rest) == IsInteger(s)
  {
    hide IntegerLength, FractionLength, ExponentLength, C;
    var n := NumberLength(s);
    var s' := s[..n] + rest;
    var a := IntegerLength(s);
    IntegerCut(s, n, rest);
    CutAt(s, n, rest, a);
    FractionCut(s[a..], n - a, rest);
    var b := a + FractionLength(s[a..]);
    CutAt(s, n, rest, b);
    assert s[a..][FractionLength(s[a..])..] == s[b..];
    ExponentCut(s[b..], n - b, rest);
  }

  lemma NumericCut(s: Text, rest: Text)
    requires NumericAt(s, 0) && EndsNumber(rest)
    ensures NumericAt(s[..NumberLength(s)] + rest, 0)
  {
    var n := NumberLength(s);
    CutAt(s, n, rest, 0);
    NumericLength(s);
  }

  lemma NumericLength(s: Text)
    requires NumericAt(s, 0)
    ensures NumberLength(s) > SignLength(s)
    ensures !IsDigit(C(s, SignLength(s))) ==> NumberLength(s) > SignLength(s) + 1
  {
    var a := SignLength(s);
    if IsDigit(C(s, a)) {
      assert s[a..][0] == s[a];
    } else {
      assert IntegerLength(s) == a;
      assert C(s[a..], 0) == C(s, a) && C(s[a..], 1) == C(s, a + 1);
    }
  }

  // ---- White space ----

  predicate AllSpace(v: Text) { forall i :: 0 <= i < |v| ==> IsSpace(v[i]) }

  lemma {:induction false} SpaceRunIs(s: Text)
    ensures AllSpace(s[..SpaceRun(s)]) && !IsSpace(C(s, SpaceRun(s)))
  {
    if s != [] && IsSpace(s[0]) {
      SpaceRunIs(s[1..]);
      var n := SpaceRun(s);
      assert s[..n] == [s[0]] + s[1..][..n - 1];
      assert C(s, n) == C(s[1..], n - 1);
    }
  }

  lemma {:induction false} SpaceRunOf(v: Text, rest: Text)
    requires AllSpace(v) && !IsSpace(C(rest, 0))
    ensures SpaceRun(v + rest) == |v|
  {
    if v == [] {
      assert v + rest == rest;
    } else {
      assert (v + rest)[1..] == v[1..] + rest;
      SpaceRunOf(v[1..], rest);
    }
  }
}
