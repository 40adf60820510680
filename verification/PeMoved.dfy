/**
 What the loader binds when the header pointer of the output selects another header: exactly what
 the input's bytes say under that header, as long as none of the bytes read was rewritten.
 */
module PeMoved {
  import opened Options
  import opened PeFormat
  import opened PeRoute
  import opened PePrepare
  import opened PeImports

  // ---- The bytes that reading the imports depends on ----

  ghost predicate Clear(w: nat -> bool, at: nat, length: nat) { forall k: nat :: at <= k < at + length ==> !w(k) }

  ghost predicate StringClear(b: Bytes, q: Pe, w: nat -> bool, rva: nat) {
    var s := StringAt(b, q, rva);
    s.Some? ==> ByteByByte(q, w, rva, |s.value|)
  }

  ghost predicate ByteByByte(q: Pe, w: nat -> bool, rva: nat, length: nat) {
    forall a: nat :: rva <= a <= rva + length ==> Offset(q, a, 1).Some? ==> !w(Offset(q, a, 1).value)
  }

  ghost predicate EntriesClear(b: Bytes, q: Pe, w: nat -> bool, lookup: nat, left: nat)
    decreases left
  {
    left > 0 && Value32(b, q, lookup).Some? ==>
      && Clear(w, Offset(q, lookup, 4).value, 4)
      && var value := Value32(b, q, lookup).value;
         value != 0 ==>
           && (value < BY_ORDINAL ==> StringClear(b, q, w, value + 2))
           && EntriesClear(b, q, w, lookup + 4, left - 1)
  }

  ghost predicate DescriptorsClear(b: Bytes, q: Pe, w: nat -> bool, at: nat, left: nat)
    decreases left
  {
    left > 0 && at + 20 <= |b| ==>
      && Clear(w, at, 20)
      && var r := RawAt(b, at);
         r != EMPTY ==>
           && StringClear(b, q, w, r.name) && EntriesClear(b, q, w, if r.oft != 0 then r.oft else r.ft, MAX_IMPORTS)
           && DescriptorsClear(b, q, w, at + 20, left - 1)
  }

  /** The two directory entries, the descriptors, the lookup tables and the names. */
  ghost predicate ImportsClear(b: Bytes, q: Pe, w: nat -> bool)
    requires q.opt + 224 <= |b|
  {
    && Clear(w, q.opt + 104, 8) && Clear(w, q.opt + 192, 8)
    && var (rva, size) := Directory(b, q, 1);
       Offset(q, rva, size).Some? ==> DescriptorsClear(b, q, w, Offset(q, rva, size).value, Min(size / 20, 4096))
  }

  ghost predicate SameOutside(b: Bytes, out: Bytes, w: nat -> bool) {
    |b| <= |out| && forall k: nat :: k < |b| && !w(k) ==> out[k] == b[k]
  }

  // ---- Reading the same ----

  lemma Word(b: Bytes, out: Bytes, w: nat -> bool, at: nat, i: nat, length: nat)
    requires SameOutside(b, out, w) && Clear(w, at, length) && i + 4 <= length && at + length <= |b|
    ensures U32(out, at + i) == U32(b, at + i)
  {
    assert out[at + i..at + i + 4] == b[at + i..at + i + 4];
  }

  lemma {:induction false} StringSame(b: Bytes, out: Bytes, q: Pe, w: nat -> bool, rva: nat, left: nat)
    requires SameOutside(b, out, w) && StringFrom(b, q, rva, left).Some?
    requires ByteByByte(q, w, rva, |StringFrom(b, q, rva, left).value|)
    ensures StringFrom(out, q, rva, left) == StringFrom(b, q, rva, left)
    decreases left
  {
    hide Offset;
    var o := Offset(q, rva, 1).value;
    assert out[o] == b[o];
    if b[o] != 0 {
      StringSame(b, out, q, w, rva + 1, left - 1);
    }
  }

  lemma SymbolSame(b: Bytes, out: Bytes, q: Pe, w: nat -> bool, value: nat)
    requires SameOutside(b, out, w) && SymbolAt(b, q, value).Some? && (value < BY_ORDINAL ==> StringClear(b, q, w, value + 2))
    ensures SymbolAt(out, q, value) == SymbolAt(b, q, value)
  {
    hide Offset, StringFrom, ByteByByte;
    if value < BY_ORDINAL {
      StringSame(b, out, q, w, value + 2, STRING_LIMIT);
    }
  }

  /** Where cells may lie is the same. */
  ghost predicate SameTable(b: Bytes, out: Bytes, q: Pe) {
    q.opt + 224 <= |b| <= |out| && Directory(out, q, 12) == Directory(b, q, 12)
  }

  lemma {:induction false} EntriesSame(b: Bytes, out: Bytes, q: Pe, w: nat -> bool, lookup: nat, ft: nat, claimed: set<nat>, left: nat)
    requires SameOutside(b, out, w) && SameTable(b, out, q)
    requires Entries(b, q, lookup, ft, claimed, left).Some? && EntriesClear(b, q, w, lookup, left)
    ensures Entries(out, q, lookup, ft, claimed, left) == Entries(b, q, lookup, ft, claimed, left)
    decreases left
  {
    hide Offset, SymbolAt, U32, Directory, Clear, Backing, StringClear, IsInitializedData;
    var value := Value32(b, q, lookup).value;
    Word(b, out, w, Offset(q, lookup, 4).value, 0, 4);
    assert IatOk(out, q, ft);
    if value != 0 {
      SymbolSame(b, out, q, w, value);
      EntriesSame(b, out, q, w, lookup + 4, ft + 4, claimed + {ft}, left - 1);
    }
  }

  lemma RawSame(b: Bytes, out: Bytes, w: nat -> bool, at: nat)
    requires SameOutside(b, out, w) && Clear(w, at, 20) && at + 20 <= |b|
    ensures RawAt(out, at) == RawAt(b, at)
  {
    hide U32, Clear;
    Word(b, out, w, at, 0, 20);
    Word(b, out, w, at, 4, 20);
    Word(b, out, w, at, 8, 20);
    Word(b, out, w, at, 12, 20);
    Word(b, out, w, at, 16, 20);
  }

  lemma {:induction false} DescriptorsSame(b: Bytes, out: Bytes, q: Pe, w: nat -> bool, at: nat, claimed: set<nat>, left: nat)
    requires SameOutside(b, out, w) && SameTable(b, out, q)
    requires Descriptors(b, q, at, claimed, left).Some? && DescriptorsClear(b, q, w, at, left)
    ensures Descriptors(out, q, at, claimed, left) == Descriptors(b, q, at, claimed, left)
    decreases left
  {
    hide Entries, EntriesClear, StringFrom, ByteByByte, Clear, RawAt, DllOk, RawOk, Directory;
    RawSame(b, out, w, at);
    var r := RawAt(b, at);
    if r != EMPTY {
      var lookup := if r.oft != 0 then r.oft else r.ft;
      StringSame(b, out, q, w, r.name, STRING_LIMIT);
      EntriesSame(b, out, q, w, lookup, r.ft, claimed, MAX_IMPORTS);
      DescriptorsSame(b, out, q, w, at + 20, Entries(b, q, lookup, r.ft, claimed, MAX_IMPORTS).value.claimed, left - 1);
    }
  }

  lemma ImportsSame(b: Bytes, out: Bytes, q: Pe, w: nat -> bool)
    requires SameOutside(b, out, w) && q.opt + 224 <= |b| && Imports(b, q).Some? && ImportsClear(b, q, w)
    ensures q.opt + 224 <= |out| && Imports(out, q) == Imports(b, q)
  {
    hide Descriptors, DescriptorsClear, Offset, U32, Clear;
    Word(b, out, w, q.opt + 104, 0, 8);
    Word(b, out, w, q.opt + 104, 4, 8);
    Word(b, out, w, q.opt + 192, 0, 8);
    Word(b, out, w, q.opt + 192, 4, 8);
    var (rva, size) := Directory(b, q, 1);
    DescriptorsSame(b, out, q, w, Offset(q, rva, size).value, {}, Min(size / 20, 4096));
  }

  /** The bytes that a preparation of these imports rewrites. */
  ghost function Rewrites(p: Pe, plan: Plan, ds: seq<Descriptor>): nat -> bool {
    (k: nat) => Rewritten(p, CellsOf(RerouteAll(plan, Flatten(ds))), k)
  }

  /**
   An accepted image whose output is read through a header that, with everything it leads to, lies
   outside the rewritten bytes: the loader binds what that header said before, nothing rerouted.
   */
  lemma MovedBindings(b: Bytes, plan: Plan, p: Pe, ds: seq<Descriptor>, out: Bytes, q: Pe)
    requires Readable(plan.provider) && Prepared(b, plan) == Some(out) && Parse(out) == Some(q)
    requires Parse(b) == Some(p) && p.opt + 224 <= |b| && Imports(b, p) == Some(ds)
    requires q.opt + 224 <= |b| && Imports(b, q).Some? && ImportsClear(b, q, Rewrites(p, plan, ds))
    ensures q.opt + 224 <= |out| && Imports(out, q) == Imports(b, q)
  {
    hide Parse, Imports, CellsOf, RerouteAll, Flatten, CellHolds, PointerLives, NamesUntouched, BindsSame, Rewritten, ImportsClear, Prepared;
    PreparedPreserves(b, plan);
    ImportsSame(b, out, q, Rewrites(p, plan, ds));
  }
}
