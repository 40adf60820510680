/**
 The token-preserving serializer: section 9 of CSS Syntax Module Level 3, with every name,
 string and URL written as hexadecimal escapes.
 */
module CssSerialize {
  import opened CssTokens

  function HexChar(d: nat): nat
    requires d < 16
  {
    if d < 10 then 48 + d else 97 + (d - 10)
  }

  function HexDigits(c: nat): (r: Text)
    ensures |r| >= 1 && forall i :: 0 <= i < |r| ==> IsHex(r[i])
  {
    if c < 16 then [HexChar(c)] else HexDigits(c / 16) + [HexChar(c % 16)]
  }

  function Escape(c: nat): Text { [92] + HexDigits(c) + [32] }

  function Escapes(v: Text): Text {
    if v == [] then [] else Escape(v[0]) + Escapes(v[1..])
  }

  /** A code point as one or two UTF-16 units. */
  function Utf16(c: nat): Text {
    if c > 0xFFFF then [(0xD800 + (c - 0x10000) / 1024) % 0x10000, 0xDC00 + (c - 0x10000) % 1024] else [c]
  }

  function Utf16s(v: Text): Text {
    if v == [] then [] else Utf16(v[0]) + Utf16s(v[1..])
  }

  /** Whether a hash code point may be written as it is without turning the hash into an identifier. */
  predicate RawInHash(id: bool, v: Text, k: nat)
    requires k < |v|
  {
    !id && (IsDigit(v[k]) || (k == 0 && v[k] == 45))
  }

  function HashText(id: bool, v: Text, k: nat): Text
    requires k <= |v|
    decreases |v| - k
  {
    if k == |v| then []
    else (if RawInHash(id, v, k) then Utf16(v[k]) else Escape(v[k])) + HashText(id, v, k + 1)
  }

  predicate IsBad(t: Token) { t.BadString? || t.BadUrl? }

  function TextOf(t: Token): Text
    requires !IsBad(t)
  {
    match t
    case Whitespace(v) => Utf16s(v)
    case Number(text, _) => Utf16s(text)
    case Percentage(text, _) => Utf16s(text) + [37]
    case Dimension(text, _, unit) => Utf16s(text) + Escapes(unit)
    case Ident(v) => Escapes(v)
    case Function(v) => Escapes(v) + [40]
    case AtKeyword(v) => [64] + Escapes(v)
    case Hash(v, id) => [35] + HashText(id, v, 0)
    case String(v) => [34] + Escapes(v) + [34]
    case Url(v) => [117, 114, 108, 40] + Escapes(v) + [41]
    case Cdo => [60, 33, 45, 45]
    case Cdc => [45, 45, 62]
    case Symbol(c) => if c == 92 then [92, 10] else Utf16(c)
  }

  const SEPARATOR: Text := [47, 42, 42, 47]

  /** A separator is due between two tokens unless either is white space or the first is a function. */
  function Serial(ts: seq<Token>, previous: bool): Text
    requires forall i :: 0 <= i < |ts| ==> !IsBad(ts[i])
  {
    if ts == [] then []
    else
      var text := TextOf(ts[0]) + Serial(ts[1..], !ts[0].Whitespace? && !ts[0].Function?);
      if previous && !ts[0].Whitespace? then SEPARATOR + text else text
  }

  ghost predicate NoBad(ts: seq<Token>) { forall i :: 0 <= i < |ts| ==> !IsBad(ts[i]) }

  datatype SerialResult = Serialized(units: Text) | Unsupported

  /** Bad tokens are refused, all others are written. */
  function Serialize(ts: seq<Token>): SerialResult {
    if exists i :: 0 <= i < |ts| && IsBad(ts[i]) then Unsupported else Serialized(Serial(ts, false))
  }
}
