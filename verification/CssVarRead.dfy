/**
 The text of a `var()` call, and the tokens that it reads as.
 */
module CssVarRead {
  import opened CssTokens
  import opened CssUnits

  // ---- Texts ----

  /** The letters of "var", each in either case. */
  predicate VarWord(w: Text) {
    |w| == 3 && (w[0] == 118 || w[0] == 86) && (w[1] == 97 || w[1] == 65) && (w[2] == 114 || w[2] == 82)
  }

  /** ASCII letters, digits, hyphen, underscore, and units from 128 on that are no surrogates. */
  predicate NamePoint(c: nat) {
    || 48 <= c <= 57 || 65 <= c <= 90 || 97 <= c <= 122 || c == 45 || c == 95
    || 128 <= c < 0xD800 || 0xE000 <= c < 0x10000
  }

  predicate NamePoints(n: Text) { forall i :: 0 <= i < |n| ==> NamePoint(n[i]) }

  /** Two hyphens and at least one more name code point. */
  predicate Dashed(n: Text) { |n| > 2 && n[0] == 45 && n[1] == 45 && NamePoints(n) }

  function VarCall(w: Text, n: Text): Text { w + [40] + n + [41] }

  function VarElse(w: Text, n: Text, f: Text): Text { w + [40] + n + [44] + f + [41] }

  // ---- Reading them ----

  lemma {:induction false} PointsPass(n: Text, rest: Text)
    requires NamePoints(n)
    ensures Preprocess(n + rest) == n + Preprocess(rest)
  {
    if n == [] {
      assert n + rest == rest && n + Preprocess(rest) == Preprocess(rest);
    } else {
      assert n + rest == [n[0]] + (n[1..] + rest);
      PointsPass(n[1..], rest);
      UnitRead(n[0], n[1..] + rest);
      assert n + Preprocess(rest) == [n[0]] + (n[1..] + Preprocess(rest));
    }
  }

  /** The text ends, or goes on with something that ends a name. */
  predicate EndsName(rest: Text) { rest == [] || rest[0] == 40 || rest[0] == 41 || rest[0] == 44 }

  lemma {:induction false} PointsName(n: Text, rest: Text)
    requires NamePoints(n) && EndsName(rest)
    ensures Name(n + rest) == Read(n, |n|)
  {
    var s := n + rest;
    if n == [] {
      assert s == rest;
    } else {
      assert s[0] == n[0] && s[1..] == n[1..] + rest;
      PointsName(n[1..], rest);
      assert [n[0]] + n[1..] == n;
    }
  }

  lemma TokensFirst(a: Text, rest: Text, t: Token)
    requires a != [] && !AtComment(a + rest) && First(a + rest) == Read(t, |a|)
    ensures Tokens(a + rest) == [t] + Tokens(rest)
  {
    assert (a + rest)[|a|..] == rest;
  }

  lemma DashedReads(n: Text, rest: Text)
    requires Dashed(n) && EndsName(rest) && (rest != [] ==> rest[0] != 40)
    ensures Tokens(n + rest) == [Ident(n)] + Tokens(rest)
  {
    hide Name, Tokens;
    var s := n + rest;
    PointsName(n, rest);
    assert s[0] == 45 && s[1] == 45 && s[2] == n[2];
    assert C(s, |n|) != 40;
    TokensFirst(n, rest, Ident(n));
  }

  lemma VarReads(w: Text, rest: Text)
    requires VarWord(w)
    ensures Tokens(w + [40] + rest) == [Function(w)] + Tokens(rest)
  {
    hide Name, Tokens;
    var s := w + [40] + rest;
    assert s == w + ([40] + rest);
    PointsName(w, [40] + rest);
    assert s[0] == w[0] && C(s, 3) == 40;
    TokensFirst(w + [40], rest, Function(w));
  }

  lemma SymbolReads(c: nat, rest: Text)
    requires c == 41 || c == 44
    ensures Tokens([c] + rest) == [Symbol(c)] + Tokens(rest)
  {
    hide Tokens;
    var s := [c] + rest;
    TokensFirst([c], rest, Symbol(c));
  }

  lemma CallReads(w: Text, n: Text)
    requires VarWord(w) && Dashed(n)
    ensures Tokens(Preprocess(VarCall(w, n))) == [Function(w), Ident(n), Symbol(41)]
  {
    hide Tokens, Preprocess;
    var s := VarCall(w, n);
    assert s == w + ([40] + (n + [41]));
    PointsPass(w, [40] + (n + [41]));
    UnitRead(40, n + [41]);
    PointsPass(n, [41]);
    UnitRead(41, []);
    EmptyReads();
    assert [41] + [] == [41];
    assert Preprocess(s) == w + [40] + (n + [41]);
    VarReads(w, n + [41]);
    DashedReads(n, [41]);
    SymbolReads(41, []);
  }

  lemma EmptyReads()
    ensures Preprocess([]) == [] && Tokens([]) == []
  {
  }

  lemma ElsePasses(w: Text, n: Text, rest: Text)
    requires VarWord(w) && Dashed(n)
    ensures Preprocess(w + ([40] + (n + ([44] + rest)))) == w + [40] + (n + ([44] + Preprocess(rest)))
  {
    hide Preprocess;
    var tail := n + ([44] + rest);
    PointsPass(w, [40] + tail);
    UnitRead(40, tail);
    PointsPass(n, [44] + rest);
    UnitRead(44, rest);
    assert w + ([40] + Preprocess(tail)) == w + [40] + Preprocess(tail);
  }

  lemma ElseReads(w: Text, n: Text, f: Text)
    requires VarWord(w) && Dashed(n)
    ensures Tokens(Preprocess(VarElse(w, n, f))) == [Function(w), Ident(n), Symbol(44)] + Tokens(Preprocess(f + [41]))
  {
    hide Tokens, Preprocess;
    hide VarElse;
    var rest := f + [41];
    ElseShape(w, n, f);
    ElsePasses(w, n, rest);
    var read := Preprocess(rest);
    VarReads(w, n + ([44] + read));
    DashedReads(n, [44] + read);
    SymbolReads(44, read);
    ThreeTokens(Function(w), Ident(n), Symbol(44), Tokens(read));
  }

  lemma ElseShape(w: Text, n: Text, f: Text)
    ensures VarElse(w, n, f) == w + ([40] + (n + ([44] + (f + [41]))))
  {
  }

  lemma ThreeTokens(a: Token, b: Token, c: Token, rest: seq<Token>)
    ensures [a] + ([b] + ([c] + rest)) == [a, b, c] + rest
  {
  }

  /** A word: a letter, underscore or unit from 128 on, then name code points. */
  predicate Word(n: Text) { n != [] && NamePoints(n) && !(48 <= n[0] <= 57) && n[0] != 45 }

  lemma TextReads(n: Text)
    requires Dashed(n) || Word(n)
    ensures Tokens(Preprocess(n)) == [Ident(n)]
  {
    hide Name, Tokens, Preprocess;
    PointsPass(n, []);
    PointsName(n, []);
    EmptyReads();
    assert n + [] == n;
    if Dashed(n) {
      DashedReads(n, []);
    } else {
      assert C(n, |n|) != 40;
      TokensFirst(n, [], Ident(n));
    }
  }

  /** The letters of a lower-case word, each in either case. */
  predicate Spells(n: Text, word: string) {
    |n| == |word| && forall i :: 0 <= i < |n| ==> n[i] == word[i] as int || n[i] == word[i] as int - 32
  }
}
