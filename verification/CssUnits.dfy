/**
 The input stream unit by unit: what every UTF-16 code unit and every surrogate pair becomes.
 */
module CssUnits {
  import opened CssTokens
  import opened CssSerialize

  predicate High(u: nat) { 0xD800 <= u < 0xDC00 }
  predicate Low(u: nat) { 0xDC00 <= u < 0xE000 }

  /** A pair stands for the code point whose upper and lower ten bits, above U+10000, the two units carry. */
  lemma PairRead(h: nat, l: nat, rest: Text, c: nat)
    requires High(h) && Low(l) && 0x10000 <= c <= 0x10FFFF
    requires (c - 0x10000) / 0x400 == h - 0xD800 && (c - 0x10000) % 0x400 == l - 0xDC00
    ensures Preprocess([h, l] + rest) == [c] + Preprocess(rest)
  {
    var u := [h, l] + rest;
    assert u[2..] == rest;
  }

  /** Newlines are unified; NUL and lone surrogates are replaced; any other unit stands for itself. */
  lemma UnitRead(u: nat, rest: Text)
    ensures u == 13 && rest != [] && rest[0] == 10 ==> Preprocess([u] + rest) == [10] + Preprocess(rest[1..])
    ensures u == 13 && (rest == [] || rest[0] != 10) ==> Preprocess([u] + rest) == [10] + Preprocess(rest)
    ensures u == 12 ==> Preprocess([u] + rest) == [10] + Preprocess(rest)
    ensures u == 0 || Low(u) || (High(u) && (rest == [] || !Low(rest[0]))) ==> Preprocess([u] + rest) == [0xFFFD] + Preprocess(rest)
    ensures u != 0 && u != 12 && u != 13 && !High(u) && !Low(u) ==> Preprocess([u] + rest) == [u] + Preprocess(rest)
  {
    var s := [u] + rest;
    assert s[1..] == rest;
    if rest != [] {
      assert C(s, 1) == rest[0] && s[2..] == rest[1..];
    }
  }

  predicate Readable(c: nat) { 0 < c <= 0x10FFFF && !High(c) && !Low(c) && c != 12 && c != 13 }

  /** UTF-16 text of scalar values reads back as these values. */
  lemma {:induction false} ScalarsRead(v: Text)
    requires forall i :: 0 <= i < |v| ==> Readable(v[i])
    ensures Preprocess(Utf16s(v)) == v
  {
    if v != [] {
      var c, rest := v[0], Utf16s(v[1..]);
      ScalarsRead(v[1..]);
      if c > 0xFFFF {
        PairRead(Utf16(c)[0], Utf16(c)[1], rest, c);
        assert Utf16(c) == [Utf16(c)[0], Utf16(c)[1]];
      } else {
        UnitRead(c, rest);
      }
      assert v == [c] + v[1..];
    }
  }
}
