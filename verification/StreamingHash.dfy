/**
 The streaming hash and HMAC objects. The compression function is a parameter; padding and
 length follow section 5.1.1 of FIPS 180-4 and sections 3.1 and 3.2 of RFC 1321, keying
 follows section 2 of RFC 2104.
 */
module StreamingHash {
  import ByteStrings
  import opened Modular

  type Byte = bv8
  type Bytes = seq<Byte>
  type Words = seq<bv32>

  /** `bigEndian` is the byte order of the length field. */
  datatype Algorithm = Algorithm(init: Words, compress: (Words, Bytes) -> Words, output: Words -> Bytes,
                                 digest: nat, bigEndian: bool)

  ghost predicate Usable(a: Algorithm) {
    a.digest <= 64 && forall h :: |a.output(h)| == a.digest
  }

  // ---- The one-shot hash ----

  /** Compresses the complete blocks of a message. */
  function Fold(a: Algorithm, h: Words, m: Bytes): Words
    decreases |m|
  {
    if |m| < 64 then h else Fold(a, a.compress(h, m[..64]), m[64..])
  }

  function NullBytes(n: nat): (r: Bytes)
    ensures |r| == n
  {
    seq(n, _ => 0)
  }

  function LengthByte(bits: nat, i: nat): Byte { ((bits / ByteStrings.Pow256(i)) % 256) as bv8 }

  /** The length field: the bit count modulo 2^64. */
  function LengthField(a: Algorithm, bits: nat): (r: Bytes)
    ensures |r| == 8
  {
    seq(8, i requires 0 <= i < 8 => LengthByte(bits, if a.bigEndian then 7 - i else i))
  }

  const TWO64 := 0x1_0000_0000_0000_0000

  /** Arithmetic of the 64-bit counters. */
  function Mod64(n: nat): (r: nat)
    ensures r < TWO64
  {
    n % TWO64
  }

  function PadCount(used: nat): nat
    requires used < 64
  {
    if used < 56 then 56 - used else 120 - used
  }

  function Padded(a: Algorithm, m: Bytes): Bytes {
    m + [0x80] + NullBytes(PadCount(|m| % 64) - 1) + LengthField(a, Mod64(|m| * 8))
  }

  function OneShot(a: Algorithm, m: Bytes): Bytes { a.output(Fold(a, a.init, Padded(a, m))) }

  /** A padded message is a whole number of blocks. */
  lemma PaddedIsWhole(a: Algorithm, m: Bytes)
    ensures |Padded(a, m)| % 64 == 0 && m <= Padded(a, m)
  {
  }

  lemma {:induction false} FoldSnoc(a: Algorithm, h: Words, m: Bytes, b: Bytes)
    requires |m| % 64 == 0 && |b| == 64
    ensures Fold(a, h, m + b) == a.compress(Fold(a, h, m), b)
    decreases |m|
  {
    if m == [] {
      assert m + b == b && b[..64] == b && b[64..] == [];
    } else {
      assert (m + b)[..64] == m[..64] && (m + b)[64..] == m[64..] + b;
      FoldSnoc(a, a.compress(h, m[..64]), m[64..], b);
    }
  }

  // ---- HMAC ----

  function Xor(key: Bytes, mask: Byte): (r: Bytes)
    ensures |r| == |key|
  {
    seq(|key|, i requires 0 <= i < |key| => key[i] ^ mask)
  }

  /** The key brought to one block: hashed if longer, then zero-filled. */
  function BlockKey(a: Algorithm, key: Bytes): Bytes {
    var k := if |key| > 64 then OneShot(a, key) else key;
    k + NullBytes(if |k| < 64 then 64 - |k| else 0)
  }

  function Hmac(a: Algorithm, key: Bytes, m: Bytes): Bytes {
    var k := BlockKey(a, key);
    OneShot(a, Xor(k, 0x5C) + OneShot(a, Xor(k, 0x36) + m))
  }

  // ---- The streaming state ----

  class HashState {
    const a: Algorithm
    var h: Words
    const block: array<Byte>
    var used: nat
    var total: nat

    ghost predicate Valid()
      reads this, block
    {
      block.Length == 64 && used < 64 && total < TWO64
    }

    /** Complete blocks of the message are compressed, the rest is in the buffer. */
    ghost predicate Absorbed(m: Bytes)
      reads this, block
    {
      && Valid() && used == |m| % 64
      && block[..used] == m[|m| - used..]
      && h == Fold(a, a.init, m[..|m| - used])
    }

    /** The state stands for exactly this message. */
    ghost predicate Holds(m: Bytes)
      reads this, block
    {
      Absorbed(m) && total == Mod64(|m|)
    }

    constructor (a: Algorithm)
      ensures this.a == a && Holds([]) && fresh(block)
    {
      this.a := a;
      h := a.init;
      block := new Byte[64](_ => 0);
      used, total := 0, 0;
    }

    method Reset()
      requires block.Length == 64
      modifies this
      ensures Holds([])
    {
      h := a.init;
      used, total := 0, 0;
    }

    /** Copies bytes into the block behind what is already there. */
    method Fill(data: Bytes)
      requires Valid() && used + |data| <= 64
      modifies block
      ensures block[..used + |data|] == old(block[..used]) + data
    {
      for i := 0 to |data|
        invariant block[..used + i] == old(block[..used]) + data[..i]
      {
        block[used + i] := data[i];
        assert block[..used + i + 1] == block[..used + i] + [data[i]];
        assert data[..i + 1] == data[..i] + [data[i]];
      }
      assert data[..|data|] == data;
    }

    /** One portion that fits into the block; a full block is compressed. */
    method Absorb(piece: Bytes, ghost m: Bytes)
      requires Absorbed(m) && used + |piece| <= 64
      modifies this`h, this`used, block
      ensures Absorbed(m + piece)
    {
      hide Fold;
      ghost var whole, part, all := m[..|m| - used], m[|m| - used..], m + piece;
      assert all == whole + (part + piece);
      Fill(piece);
      used := used + |piece|;
      if used == 64 {
        assert block[..] == block[..64] == part + piece;
        FoldSnoc(a, a.init, whole, part + piece);
        h := a.compress(h, block[..]);
        used := 0;
        assert all[..|all|] == all;
      } else {
        BlockRest(|whole|, used);
        assert all[|all| - used..] == part + piece && all[..|all| - used] == whole;
      }
    }

    lemma RoomLeft(m: Bytes)
      requires Absorbed(m)
      ensures used < 64
    {
    }

    twostate lemma CountOnly(m: Bytes)
      requires old(Absorbed(m)) && unchanged(this`h, this`used, block) && total < TWO64
      ensures Absorbed(m)
    {
      assert block[..used] == old(block[..used]);
    }

    /** Absorbs bytes in any portions: the state then stands for the concatenation. */
    method Update(data: Bytes, ghost m: Bytes)
      requires Holds(m)
      modifies this, block
      ensures Holds(m + data)
    {
      hide Fold, Mod64, Absorbed;
      TotalAdds(|m|, |data|);
      total := Mod64(total + |data|);
      CountOnly(m);
      var done := 0;
      assert m + data[..0] == m;
      while done < |data|
        invariant done <= |data| && Absorbed(m + data[..done]) && total == Mod64(|m + data|)
      {
        RoomLeft(m + data[..done]);
        var space, count := 64 - used, |data| - done;
        var take := if count < space then count else space;
        Absorb(data[done..done + take], m + data[..done]);
        TakeMore(m, data, done, take);
        done := done + take;
      }
      assert data[..|data|] == data;
    }

    /** Pads with what has been absorbed so far and delivers the digest of the one-shot hash. */
    method Final(ghost m: Bytes) returns (output: Bytes)
      requires Holds(m)
      modifies this, block
      ensures output == OneShot(a, m) && block.Length == 64
    {
      hide Fold, Mod64;
      var bits := Mod64(total * 8);
      BitCount(|m|);
      var pad := [0x80] + NullBytes(PadCount(used) - 1);
      var length := LengthField(a, bits);
      Update(pad, m);
      Update(length, m + pad);
      PaddedIsWhole(a, m);
      assert m + pad + length == Padded(a, m);
      assert Padded(a, m)[..|Padded(a, m)|] == Padded(a, m);
      output := a.output(h);
    }
  }

  lemma TakeMore(m: Bytes, data: Bytes, done: nat, take: nat)
    requires done + take <= |data|
    ensures m + data[..done] + data[done..done + take] == m + data[..done + take]
  {
    assert data[..done] + data[done..done + take] == data[..done + take];
  }

  lemma BlockRest(whole: nat, part: nat)
    requires whole % 64 == 0 && part < 64
    ensures (whole + part) % 64 == part
  {
  }

  lemma TotalAdds(n: nat, k: nat)
    ensures Mod64(Mod64(n) + k) == Mod64(n + k)
  {
    var q, r := n / TWO64, n % TWO64;
    assert n + k == q * TWO64 + (r + k);
    ModShift(q, r + k, TWO64);
  }

  lemma BitCount(n: nat)
    ensures Mod64(Mod64(n) * 8) == Mod64(n * 8)
  {
    var q, r := n / TWO64, n % TWO64;
    assert n * 8 == q * 8 * TWO64 + r * 8;
    ModShift(q * 8, r * 8, TWO64);
  }

  /** However a message is split, the digest is that of the whole message. */
  method HashInPieces(a: Algorithm, pieces: seq<Bytes>) returns (output: Bytes)
    ensures output == OneShot(a, Concat(pieces))
  {
    hide Fold, Mod64;
    var state := new HashState(a);
    ghost var m: Bytes := [];
    for i := 0 to |pieces|
      invariant state.a == a && fresh(state) && fresh(state.block) && state.Holds(m) && m == Concat(pieces[..i])
    {
      assert pieces[..i + 1][..i] == pieces[..i];
      state.Update(pieces[i], m);
      m := m + pieces[i];
    }
    assert pieces[..|pieces|] == pieces;
    output := state.Final(m);
  }

  function Concat(pieces: seq<Bytes>): Bytes {
    if pieces == [] then [] else Concat(pieces[..|pieces| - 1]) + pieces[|pieces| - 1]
  }

  // ---- Hash objects ----

  datatype Status = Ok | InvalidHandle | InvalidParameter

  class HashObject {
    const a: Algorithm
    const keyed: bool
    const reusable: bool
    const ipad: Bytes
    const opad: Bytes
    const state: HashState
    var finished: bool
    ghost const key: Bytes

    /** What the object computes for a message. */
    ghost function Digest(m: Bytes): Bytes {
      if keyed then Hmac(a, key, m) else OneShot(a, m)
    }

    ghost predicate Valid()
      reads this, state, state.block
    {
      && Usable(a) && state.a == a && state.block.Length == 64
      && (keyed ==> ipad == Xor(BlockKey(a, key), 0x36) && opad == Xor(BlockKey(a, key), 0x5C))
    }

    /** Ready for more data, having absorbed `m` since it was created or last restarted. */
    ghost predicate Holds(m: Bytes)
      reads this, state, state.block
    {
      Valid() && !finished && state.Holds(if keyed then ipad + m else m)
    }

    constructor (a: Algorithm, key: Bytes, keyed: bool, reusable: bool)
      requires Usable(a)
      ensures this.a == a && this.keyed == keyed && this.reusable == reusable && this.key == key
      ensures Holds([]) && fresh(state) && fresh(state.block)
    {
      this.a, this.keyed, this.reusable, this.key := a, keyed, reusable, key;
      var k := key;
      if |key| > 64 {
        var temp := new HashState(a);
        temp.Update(key, []);
        assert [] + key == key;
        k := temp.Final(key);
      }
      k := k + NullBytes(if |k| < 64 then 64 - |k| else 0);
      ipad, opad := Xor(k, 0x36), Xor(k, 0x5C);
      var st := new HashState(a);
      state := st;
      finished := false;
      new;
      if keyed {
        state.Update(ipad, []);
        assert [] + ipad == ipad + [];
      }
    }

    method Prepare()
      requires Valid()
      modifies this, state, state.block
      ensures Holds([])
    {
      state.Reset();
      if keyed {
        state.Update(ipad, []);
        assert [] + ipad == ipad + [];
      }
      finished := false;
    }

    method HashData(input: Bytes, ghost m: Bytes) returns (status: Status)
      requires Valid() && (!finished ==> Holds(m))
      modifies state, state.block
      ensures status == if old(finished) then InvalidHandle else Ok
      ensures status == Ok ==> Holds(m + input)
      ensures Valid() && finished == old(finished)
    {
      if finished {
        return InvalidHandle;
      }
      state.Update(input, if keyed then ipad + m else m);
      assert ipad + m + input == ipad + (m + input);
      return Ok;
    }

    /** Delivers the digest once; a reusable object starts over as if new. */
    method FinishHash(size: nat, ghost m: Bytes) returns (status: Status, output: Bytes)
      requires Valid() && (!finished ==> Holds(m))
      modifies this, state, state.block
      ensures status == if old(finished) then InvalidHandle else if size != a.digest then InvalidParameter else Ok
      ensures status == Ok ==> output == Digest(m) && |output| == size
      ensures status == Ok ==> if reusable then Holds([]) else finished
      ensures status == InvalidParameter ==> Holds(m)
      ensures Valid()
    {
      output := [];
      if finished {
        return InvalidHandle, [];
      }
      if size != a.digest {
        return InvalidParameter, [];
      }
      if keyed {
        var inner := state.Final(ipad + m);
        var outer := new HashState(a);
        outer.Update(opad, []);
        assert [] + opad == opad;
        outer.Update(inner, opad);
        output := outer.Final(opad + inner);
      } else {
        output := state.Final(m);
      }
      if reusable {
        Prepare();
      } else {
        finished := true;
      }
      status := Ok;
    }
  }

  // ---- The token registry ----

  const FIRST_TOKEN := 0x1_0000
  const LAST_TOKEN := 0xFFFF_FFFB

  class Registry {
    var next: nat
    var objects: map<nat, HashObject>
    ghost var issued: set<nat>

    /** Every token ever issued lies below the next one, and every object has an issued token. */
    ghost predicate Valid()
      reads this
    {
      && next >= FIRST_TOKEN
      && (forall t :: t in issued ==> FIRST_TOKEN <= t < next)
      && (forall t :: t in objects ==> t in issued)
    }

    constructor ()
      ensures Valid() && issued == {} && objects == map[] && next == 0x1_0000
    {
      next, objects, issued := FIRST_TOKEN, map[], {};
    }

    /** A token is issued at most once; 0 means that the tokens are used up. */
    method Register(entry: HashObject) returns (token: nat)
      requires Valid()
      modifies this
      ensures Valid()
      ensures token != 0 ==> token !in old(issued) && issued == old(issued) + {token} && objects == old(objects)[token := entry]
      ensures token == 0 ==> issued == old(issued) && objects == old(objects)
      ensures token == 0 <==> old(next) > 0xFFFF_FFFB
      ensures token != 0 ==> token == old(next) >= 0x1_0000 && next == token + 4
      ensures token == 0 ==> next == old(next)
    {
      if next < FIRST_TOKEN || next > LAST_TOKEN {
        return 0;
      }
      token := next;
      next := next + 4;
      objects := objects[token := entry];
      issued := issued + {token};
    }

    /** A removed token stays issued, so it never names another object. */
    method Remove(token: nat) returns (status: Status)
      requires Valid()
      modifies this
      ensures Valid() && issued == old(issued)
      ensures status == if token in old(objects) then Ok else InvalidHandle
      ensures objects == old(objects) - {token}
    {
      if token !in objects {
        assert objects - {token} == objects;
        return InvalidHandle;
      }
      objects := objects - {token};
      return Ok;
    }
  }
}
