/**
 The padded message byte by byte, and the keyed hash with its two pads written out.
 */
module HashPadding {
  import opened Modular
  import ByteStrings
  import opened StreamingHash

  /** The number that digits to base 256 spell, most significant first. */
  function BigValue(ds: seq<nat>): nat { if ds == [] then 0 else BigValue(ds[..|ds| - 1]) * 256 + ds[|ds| - 1] }

  /** The number that they spell, least significant first. */
  function LittleValue(ds: seq<nat>): nat { if ds == [] then 0 else ds[0] + 256 * LittleValue(ds[1..]) }

  /** The bytes are these digits. */
  ghost predicate Digits(s: Bytes, ds: seq<nat>) {
    |s| == |ds| && forall k :: 0 <= k < |ds| ==> ds[k] < 256 && s[k] == ds[k] as Byte
  }

  function DigitAt(n: nat, i: nat): nat { n / ByteStrings.Pow256(i) % 256 }

  lemma DigitRest(n: nat, i: nat)
    ensures n / ByteStrings.Pow256(i) == DigitAt(n, i) + 256 * (n / ByteStrings.Pow256(i + 1))
  {
    DivDiv(n, ByteStrings.Pow256(i), 256);
    hide ByteStrings.Pow256;
    var q := n / ByteStrings.Pow256(i);
    assert q == 256 * (q / 256) + q % 256;
  }

  /** The digits of a number from digit `i` on spell what is left of it. */
  lemma {:induction false} LittleDigits(ds: seq<nat>, n: nat, i: nat)
    requires forall k :: 0 <= k < |ds| ==> ds[k] == DigitAt(n, i + k)
    requires n / ByteStrings.Pow256(i + |ds|) == 0
    ensures LittleValue(ds) == n / ByteStrings.Pow256(i)
    decreases |ds|
  {
    hide DigitAt, ByteStrings.Pow256;
    if ds != [] {
      forall k | 0 <= k < |ds[1..]| ensures ds[1..][k] == DigitAt(n, i + 1 + k) {
        assert ds[1..][k] == ds[k + 1];
      }
      LittleDigits(ds[1..], n, i + 1);
      DigitRest(n, i);
      assert ds[0] == DigitAt(n, i + 0);
    }
  }

  lemma {:induction false} BigDigits(ds: seq<nat>, n: nat, i: nat)
    requires forall k :: 0 <= k < |ds| ==> ds[k] == DigitAt(n, i + |ds| - 1 - k)
    requires n / ByteStrings.Pow256(i + |ds|) == 0
    ensures BigValue(ds) == n / ByteStrings.Pow256(i)
    decreases |ds|
  {
    hide DigitAt, ByteStrings.Pow256;
    if ds != [] {
      var front := ds[..|ds| - 1];
      assert forall k :: 0 <= k < |front| ==> front[k] == ds[k];
      BigDigits(front, n, i + 1);
      DigitRest(n, i);
      assert ds[|ds| - 1] == DigitAt(n, i);
    }
  }

  lemma Small(n: nat)
    requires n < 0x1_0000_0000_0000_0000
    ensures n / ByteStrings.Pow256(8) == 0 && n / ByteStrings.Pow256(0) == n
  {
    ByteStrings.PowValues();
  }

  lemma PaddedShape(a: Algorithm, m: Bytes)
    ensures var p := Padded(a, m);
      && |m| + 9 <= |p| < |m| + 9 + 64 && |p| % 64 == 0
      && p[..|m|] == m && p[|m|] == 0x80 && (forall k :: |m| < k < |p| - 8 ==> p[k] == 0)
      && p[|p| - 8..] == LengthField(a, Mod64(|m| * 8))
  {
    hide LengthField, Mod64;
    PaddedIsWhole(a, m);
  }

  lemma FieldValue(a: Algorithm, bits: nat) returns (ds: seq<nat>)
    requires bits < 0x1_0000_0000_0000_0000
    ensures Digits(LengthField(a, bits), ds) && (if a.bigEndian then BigValue(ds) else LittleValue(ds)) == bits
  {
    ds := seq<nat>(8, k requires 0 <= k < 8 => DigitAt(bits, if a.bigEndian then 7 - k else k));
    Small(bits);
    FieldDigits(a, bits, ds);
    hide ByteStrings.Pow256, DigitAt;
    if a.bigEndian {
      BigDigits(ds, bits, 0);
    } else {
      LittleDigits(ds, bits, 0);
    }
  }

  lemma FieldDigits(a: Algorithm, bits: nat, ds: seq<nat>)
    requires |ds| == 8 && forall k :: 0 <= k < 8 ==> ds[k] == DigitAt(bits, if a.bigEndian then 7 - k else k)
    ensures Digits(LengthField(a, bits), ds)
  {
    hide ByteStrings.Pow256;
  }

  /**
   The message, one bit set, as few zero bytes as fill a block up to its last eight bytes, and
   there the bit length modulo 2^64 in the algorithm's byte order.
   */
  lemma PaddedBytes(a: Algorithm, m: Bytes) returns (ds: seq<nat>)
    ensures var p := Padded(a, m);
      && |m| + 9 <= |p| < |m| + 9 + 64 && |p| % 64 == 0
      && p[..|m|] == m && p[|m|] == 0x80 && (forall k :: |m| < k < |p| - 8 ==> p[k] == 0)
      && Digits(p[|p| - 8..], ds)
      && (if a.bigEndian then BigValue(ds) else LittleValue(ds)) == |m| * 8 % 0x1_0000_0000_0000_0000
  {
    PaddedShape(a, m);
    hide Padded, LengthField;
    ds := FieldValue(a, Mod64(|m| * 8));
  }

  /** Compression goes block by block from the initial words. */
  lemma BlocksInOrder(a: Algorithm, h: Words, b: Bytes, rest: Bytes)
    requires |b| == 64
    ensures Fold(a, h, b + rest) == Fold(a, a.compress(h, b), rest) && Fold(a, h, []) == h
  {
    assert (b + rest)[..64] == b && (b + rest)[64..] == rest;
  }

  /** Key byte `j` of a block, zero behind the key. */
  function KeyByte(k: Bytes, j: nat): Byte { if j < |k| then k[j] else 0 }

  /** A key longer than a block is replaced by its hash; the inner pad is 0x36, the outer 0x5C. */
  lemma HmacIs(a: Algorithm, key: Bytes, m: Bytes, inner: Bytes, outer: Bytes)
    requires Usable(a) && |inner| == |outer| == 64
    requires var k := if |key| > 64 then OneShot(a, key) else key;
      forall j :: 0 <= j < 64 ==> inner[j] == KeyByte(k, j) ^ 0x36 && outer[j] == KeyByte(k, j) ^ 0x5C
    ensures Hmac(a, key, m) == OneShot(a, outer + OneShot(a, inner + m))
  {
    hide OneShot;
    var k := if |key| > 64 then OneShot(a, key) else key;
    assert |OneShot(a, key)| <= 64 by { DigestSize(a, key); }
    var b := BlockKey(a, key);
    assert |b| == 64 && forall j :: 0 <= j < 64 ==> b[j] == KeyByte(k, j);
    assert Xor(b, 0x36) == inner && Xor(b, 0x5C) == outer;
  }

  lemma DigestSize(a: Algorithm, m: Bytes)
    requires Usable(a)
    ensures |OneShot(a, m)| == a.digest <= 64
  {
  }
}
