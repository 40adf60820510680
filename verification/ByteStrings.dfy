/**
 Little-endian byte strings, the `struct` packing used by every on-disk record,
 and the CRC32 that protects them.
 */
module ByteStrings {

  type Byte = x: int | 0 <= x < 256

  function Zeros(n: nat): (r: seq<Byte>)
    ensures |r| == n
    ensures forall i :: 0 <= i < n ==> r[i] == 0
  {
    seq(n, _ => 0)
  }

  predicate AllZero(s: seq<Byte>) {
    forall i :: 0 <= i < |s| ==> s[i] == 0
  }

  lemma AllZeroIsZeros(s: seq<Byte>)
    requires AllZero(s)
    ensures s == Zeros(|s|)
  {
  }

  function Pow256(w: nat): (r: nat)
    ensures r > 0
  {
    if w == 0 then 1 else 256 * Pow256(w - 1)
  }

  lemma PowValues()
    ensures Pow256(1) == 0x100
    ensures Pow256(2) == 0x1_0000
    ensures Pow256(4) == 0x1_0000_0000
    ensures Pow256(8) == 0x1_0000_0000_0000_0000
  {
    assert Pow256(3) == 0x100_0000;
    assert Pow256(5) == 0x100_0000_0000;
    assert Pow256(6) == 0x1_0000_0000_0000;
    assert Pow256(7) == 0x100_0000_0000_0000;
  }

  /** The `w` little-endian bytes of `n`. */
  function LE(n: nat, w: nat): (r: seq<Byte>)
    ensures |r| == w
    decreases w
  {
    if w == 0 then [] else [n % 256] + LE(n / 256, w - 1)
  }

  function UnLE(s: seq<Byte>): (n: nat)
    ensures n < Pow256(|s|)
  {
    if s == [] then 0 else s[0] + 256 * UnLE(s[1..])
  }

  lemma {:induction false} UnLEOfLE(n: nat, w: nat)
    requires n < Pow256(w)
    ensures UnLE(LE(n, w)) == n
    decreases w
  {
    if w > 0 {
      UnLEOfLE(n / 256, w - 1);
      assert LE(n, w)[1..] == LE(n / 256, w - 1);
    }
  }

  lemma {:induction false} LEOfUnLE(s: seq<Byte>)
    ensures LE(UnLE(s), |s|) == s
  {
    if s != [] {
      LEOfUnLE(s[1..]);
      assert s == [s[0]] + s[1..];
    }
  }

  /** Total width of a `struct` format given as a list of field widths. */
  function Width(fmt: seq<nat>): nat {
    if fmt == [] then 0 else fmt[0] + Width(fmt[1..])
  }

  lemma {:induction false} WidthConcat(a: seq<nat>, b: seq<nat>)
    ensures Width(a + b) == Width(a) + Width(b)
  {
    if a == [] {
      assert a + b == b;
    } else {
      WidthConcat(a[1..], b);
      assert (a + b)[1..] == a[1..] + b;
    }
  }

  /** `struct.pack` raises when a value does not fit its field. */
  ghost predicate Fits(fmt: seq<nat>, vals: seq<nat>) {
    |fmt| == |vals| && forall i :: 0 <= i < |fmt| ==> vals[i] < Pow256(fmt[i])
  }

  function Pack(fmt: seq<nat>, vals: seq<nat>): (r: seq<Byte>)
    requires |fmt| == |vals|
    ensures |r| == Width(fmt)
  {
    if fmt == [] then [] else LE(vals[0], fmt[0]) + Pack(fmt[1..], vals[1..])
  }

  function Unpack(fmt: seq<nat>, s: seq<Byte>): (vals: seq<nat>)
    requires |s| == Width(fmt)
    ensures |vals| == |fmt|
    ensures forall i :: 0 <= i < |fmt| ==> vals[i] < Pow256(fmt[i])
  {
    if fmt == [] then []
    else [UnLE(s[..fmt[0]])] + Unpack(fmt[1..], s[fmt[0]..])
  }

  lemma {:induction false} UnpackOfPack(fmt: seq<nat>, vals: seq<nat>)
    requires Fits(fmt, vals)
    ensures Unpack(fmt, Pack(fmt, vals)) == vals
  {
    if fmt != [] {
      var s := Pack(fmt, vals);
      assert s[..fmt[0]] == LE(vals[0], fmt[0]);
      assert s[fmt[0]..] == Pack(fmt[1..], vals[1..]);
      UnLEOfLE(vals[0], fmt[0]);
      UnpackOfPack(fmt[1..], vals[1..]);
      assert vals == [vals[0]] + vals[1..];
    }
  }

  lemma {:induction false} PackOfUnpack(fmt: seq<nat>, s: seq<Byte>)
    requires |s| == Width(fmt)
    ensures Pack(fmt, Unpack(fmt, s)) == s
  {
    if fmt != [] {
      LEOfUnLE(s[..fmt[0]]);
      PackOfUnpack(fmt[1..], s[fmt[0]..]);
      assert Unpack(fmt, s)[1..] == Unpack(fmt[1..], s[fmt[0]..]);
      assert s == s[..fmt[0]] + s[fmt[0]..];
    }
  }

  // ---- CRC32 (reflected IEEE polynomial), as computed by zlib ----

  function CrcBit(c: bv32): bv32 {
    if c & 1 == 1 then (c >> 1) ^ 0xEDB88320 else c >> 1
  }

  function CrcByte(c: bv32, b: Byte): bv32 {
    var x := c ^ (b as bv32);
    CrcBit(CrcBit(CrcBit(CrcBit(CrcBit(CrcBit(CrcBit(CrcBit(x))))))))
  }

  function Fold(step: (bv32, Byte) -> bv32, c: bv32, data: seq<Byte>): bv32
    decreases |data|
  {
    if data == [] then c
    else step(Fold(step, c, data[..|data| - 1]), data[|data| - 1])
  }

  lemma {:induction false} FoldConcat(step: (bv32, Byte) -> bv32, c: bv32, a: seq<Byte>, b: seq<Byte>)
    ensures Fold(step, c, a + b) == Fold(step, Fold(step, c, a), b)
    decreases |b|
  {
    if b == [] {
      assert a + b == a;
    } else {
      assert (a + b)[..|a + b| - 1] == a + b[..|b| - 1];
      FoldConcat(step, c, a, b[..|b| - 1]);
    }
  }

  function Flip(c: bv32): bv32 { c ^ 0xFFFFFFFF }

  lemma FlipTwice(c: bv32)
    ensures Flip(Flip(c)) == c
  {
  }

  /** `zlib.crc32(data, start)`. */
  function Crc32(data: seq<Byte>, start: bv32): bv32 {
    Flip(Fold(CrcByte, Flip(start), data))
  }

  /** Feeding a second piece with the first piece's checksum gives the checksum of both. */
  lemma Crc32Concat(a: seq<Byte>, b: seq<Byte>, start: bv32)
    ensures Crc32(b, Crc32(a, start)) == Crc32(a + b, start)
  {
    FoldConcat(CrcByte, Flip(start), a, b);
    FlipTwice(Fold(CrcByte, Flip(start), a));
  }

  /** The checksum of a whole byte string, as the unsigned 32-bit field stores it. */
  function Crc(data: seq<Byte>): (r: nat)
    ensures r < Pow256(4)
  {
    PowValues();
    Crc32(data, 0) as int
  }

  lemma CrcEmpty()
    ensures Crc([]) == 0
  {
    FlipTwice(0);
  }
}
