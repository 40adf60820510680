/**
 The allocation bitmap: bit `b % 8` of byte `b / 8` is set when block `b` is allocated.
 */
module ShizukuBitmap {
  import opened ByteStrings

  function Pow2(n: nat): (r: nat)
    ensures r > 0
  {
    if n == 0 then 1 else 2 * Pow2(n - 1)
  }

  predicate Bit(x: nat, k: nat) {
    if k == 0 then x % 2 == 1 else Bit(x / 2, k - 1)
  }

  /** `x |= 1 << k` or `x &= ~(1 << k)`, written out arithmetically. */
  function WithBit(x: nat, k: nat, v: bool): nat {
    if k == 0 then x - x % 2 + (if v then 1 else 0)
    else x % 2 + 2 * WithBit(x / 2, k - 1, v)
  }

  lemma {:induction false} WithBitExact(x: nat, k: nat, v: bool, j: nat)
    ensures Bit(WithBit(x, k, v), j) == if j == k then v else Bit(x, j)
  {
    if k > 0 && j > 0 {
      WithBitExact(x / 2, k - 1, v, j - 1);
    }
  }

  lemma {:induction false} WithBitBound(x: nat, k: nat, v: bool, n: nat)
    requires k < n && x < Pow2(n)
    ensures WithBit(x, k, v) < Pow2(n)
  {
    if k > 0 {
      WithBitBound(x / 2, k - 1, v, n - 1);
    }
  }

  lemma {:induction false} BitsDetermine(x: nat, y: nat, n: nat)
    requires x < Pow2(n) && y < Pow2(n)
    requires forall k :: 0 <= k < n ==> Bit(x, k) == Bit(y, k)
    ensures x == y
  {
    if n > 0 {
      assert Bit(x, 0) == Bit(y, 0);
      forall k | 0 <= k < n - 1 ensures Bit(x / 2, k) == Bit(y / 2, k) {
        assert Bit(x, k + 1) == Bit(y, k + 1);
      }
      BitsDetermine(x / 2, y / 2, n - 1);
    }
  }

  lemma {:induction false} FullBits(n: nat, k: nat)
    requires k < n
    ensures Bit(Pow2(n) - 1, k)
  {
    if k > 0 {
      FullBits(n - 1, k - 1);
    }
  }

  lemma PowEight()
    ensures Pow2(8) == 256
  {
    assert Pow2(4) == 16;
  }

  predicate GetBit(bm: seq<Byte>, b: nat)
    requires b < 8 * |bm|
  {
    Bit(bm[b / 8], b % 8)
  }

  function SetBit(bm: seq<Byte>, b: nat, v: bool): (r: seq<Byte>)
    requires b < 8 * |bm|
    ensures |r| == |bm|
  {
    PowEight();
    WithBitBound(bm[b / 8], b % 8, v, 8);
    bm[b / 8 := WithBit(bm[b / 8], b % 8, v)]
  }

  lemma SetBitExact(bm: seq<Byte>, b: nat, v: bool, c: nat)
    requires b < 8 * |bm| && c < 8 * |bm|
    ensures GetBit(SetBit(bm, b, v), c) == if c == b then v else GetBit(bm, c)
  {
    if c / 8 == b / 8 {
      WithBitExact(bm[b / 8], b % 8, v, c % 8);
    }
  }

  lemma BitmapsAgree(a: seq<Byte>, b: seq<Byte>)
    requires |a| == |b|
    requires forall c :: 0 <= c < 8 * |a| ==> GetBit(a, c) == GetBit(b, c)
    ensures a == b
  {
    forall i | 0 <= i < |a| ensures a[i] == b[i] {
      forall k | 0 <= k < 8 ensures Bit(a[i], k) == Bit(b[i], k) {
        assert GetBit(a, 8 * i + k) == GetBit(b, 8 * i + k);
      }
      PowEight();
      BitsDetermine(a[i], b[i], 8);
    }
  }

  method MarkBits(bm: seq<Byte>, start: nat, end: nat) returns (r: seq<Byte>)
    requires start <= end <= 8 * |bm|
    ensures |r| == |bm|
    ensures forall c :: 0 <= c < 8 * |bm| ==> GetBit(r, c) == (start <= c < end || GetBit(bm, c))
  {
    r := bm;
    for b := start to end
      invariant |r| == |bm|
      invariant forall c :: 0 <= c < 8 * |bm| ==> GetBit(r, c) == (start <= c < b || GetBit(bm, c))
    {
      forall c | 0 <= c < 8 * |bm| ensures GetBit(SetBit(r, b, true), c) == (c == b || GetBit(r, c)) {
        SetBitExact(r, b, true, c);
      }
      r := SetBit(r, b, true);
    }
  }

  /** Head bits, whole bytes, tail bits: together exactly the blocks of the range. */
  method MarkAllocatedRange(bm: seq<Byte>, start: nat, end: nat) returns (r: seq<Byte>)
    requires start <= end <= 8 * |bm|
    ensures |r| == |bm|
    ensures forall c :: 0 <= c < 8 * |bm| ==> GetBit(r, c) == (start <= c < end || GetBit(bm, c))
  {
    var rounded := (start + 7) / 8 * 8;
    var headEnd := if end < rounded then end else rounded;
    r := MarkBits(bm, start, headEnd);
    var wholeStart, wholeEnd := headEnd / 8, end / 8;
    if wholeEnd > wholeStart {
      ghost var head := r;
      r := r[..wholeStart] + seq(wholeEnd - wholeStart, _ => 255) + r[wholeEnd..];
      forall c | 0 <= c < 8 * |bm|
        ensures GetBit(r, c) == (headEnd <= c < 8 * wholeEnd || GetBit(head, c))
      {
        if wholeStart <= c / 8 < wholeEnd {
          PowEight();
          FullBits(8, c % 8);
        }
      }
    }
    var tail := if headEnd > wholeEnd * 8 then headEnd else wholeEnd * 8;
    r := MarkBits(r, tail, end);
  }

  lemma {:induction false} ZeroHasNoBits(k: nat)
    ensures !Bit(0, k)
  {
    if k > 0 {
      ZeroHasNoBits(k - 1);
    }
  }

  /** No bit of an all-zero bitmap is set. */
  lemma ClearBit(bitmap: seq<Byte>, c: nat)
    requires c < 8 * |bitmap| && AllZero(bitmap)
    ensures !GetBit(bitmap, c)
  {
    ZeroHasNoBits(c % 8);
  }

  // ---- Counting clear bits ----

  function CountClear(bm: seq<Byte>, lo: nat, hi: nat): nat
    requires lo <= hi <= 8 * |bm|
    decreases hi - lo
  {
    if lo == hi then 0 else (if GetBit(bm, lo) then 0 else 1) + CountClear(bm, lo + 1, hi)
  }

  /** Clear bits are the blocks of the range that the set of allocated blocks leaves over. */
  lemma {:induction false} CountClearIs(bm: seq<Byte>, lo: nat, hi: nat, used: set<nat>)
    requires lo <= hi <= 8 * |bm|
    requires forall b :: b in used ==> lo <= b < hi
    requires forall b :: lo <= b < hi ==> (GetBit(bm, b) <==> b in used)
    ensures CountClear(bm, lo, hi) + |used| == hi - lo
    decreases hi - lo
  {
    if lo < hi {
      CountClearIs(bm, lo + 1, hi, used - {lo});
    } else {
      assert used == {};
    }
  }

  lemma {:induction false} CountClearFrame(bm: seq<Byte>, bm': seq<Byte>, lo: nat, hi: nat)
    requires |bm'| == |bm| && lo <= hi <= 8 * |bm|
    requires forall b :: lo <= b < hi ==> GetBit(bm', b) == GetBit(bm, b)
    ensures CountClear(bm', lo, hi) == CountClear(bm, lo, hi)
    decreases hi - lo
  {
    if lo < hi {
      CountClearFrame(bm, bm', lo + 1, hi);
    }
  }
}
