/**
 PE32 images as the import router reads them: headers, sections, address mapping and the
 import tables ("The .idata Section" of the Microsoft PE Format specification).
 */
module PeFormat {
  import opened Options
  import opened ByteStrings

  type Bytes = seq<Byte>

  const LIMIT32 := 0xFFFF_FFFF

  function U16(b: Bytes, at: nat): (r: nat)
    requires at + 2 <= |b|
  {
    UnLE(b[at..at + 2])
  }

  function U32(b: Bytes, at: nat): (r: nat)
    requires at + 4 <= |b|
    ensures r < Pow256(4)
  {
    UnLE(b[at..at + 4])
  }

  function Align(value: nat, alignment: nat): nat
    requires alignment > 0
  {
    (value + alignment - 1) / alignment * alignment
  }

  lemma AlignBounds(value: nat, alignment: nat)
    requires alignment > 0
    ensures value <= Align(value, alignment) < value + alignment
  {
    var n := value + alignment - 1;
    assert n == n / alignment * alignment + n % alignment;
  }

  predicate PowerOfTwo(n: nat) { n == 1 || (n > 1 && n % 2 == 0 && PowerOfTwo(n / 2)) }

  function Max(a: nat, b: nat): nat { if a < b then b else a }

  // ---- Headers ----

  /** `span` is the larger of the virtual and the raw size. */
  datatype Section = Section(va: nat, span: nat, rp: nat, rs: nat, flags: nat)

  datatype Pe = Pe(pe: nat, count: nat, opt: nat, table: nat, headers: nat,
                   sectionAlignment: nat, fileAlignment: nat, sections: seq<Section>)

  predicate HeaderOk(b: Bytes) {
    && |b| >= 64 && b[0] == 77 && b[1] == 90
    && var pe := U32(b, 60);
    && pe + 24 <= |b| && b[pe..pe + 4] == [80, 69, 0, 0] && U16(b, pe + 4) == 0x14C
    && var opt, size := pe + 24, U16(b, pe + 20);
    && opt + size <= |b| && size >= 224 && U16(b, opt) == 0x10B && U32(b, opt + 92) == 16
    && var sa, fa := U32(b, opt + 32), U32(b, opt + 36);
    && 512 <= fa <= 65536 && sa >= 4096 && sa >= fa && PowerOfTwo(sa) && PowerOfTwo(fa)
    && U32(b, opt + 60) <= |b|
    && 1 <= U16(b, pe + 6) < 96 && opt + size + 40 * U16(b, pe + 6) <= U32(b, opt + 60)
  }

  function SectionAt(b: Bytes, at: nat): Section
    requires at + 40 <= |b|
  {
    Section(U32(b, at + 12), Max(U32(b, at + 8), U32(b, at + 16)), U32(b, at + 20), U32(b, at + 16), U32(b, at + 36))
  }

  function HeaderOf(b: Bytes): Pe
    requires HeaderOk(b)
  {
    var pe := U32(b, 60);
    var opt, count := pe + 24, U16(b, pe + 6);
    var table := opt + U16(b, pe + 20);
    Pe(pe, count, opt, table, U32(b, opt + 60), U32(b, opt + 32), U32(b, opt + 36),
       seq(count, i requires 0 <= i < count => SectionAt(b, table + 40 * i)))
  }

  predicate SectionOk(p: Pe, s: Section, size: nat) {
    && s.va >= p.headers && p.sectionAlignment > 0 && s.va % p.sectionAlignment == 0 && s.va + s.span <= LIMIT32
    && (s.rs != 0 ==>
          && s.rp >= p.headers && p.fileAlignment > 0 && s.rp % p.fileAlignment == 0 && s.rs % p.fileAlignment == 0
          && s.rp + s.rs <= size)
  }

  predicate Overlap(a: nat, an: nat, b: nat, bn: nat) { an != 0 && bn != 0 && a < b + bn && b < a + an }

  function EndOf(ss: seq<Section>): nat {
    if ss == [] then 0 else Max(EndOf(ss[..|ss| - 1]), ss[|ss| - 1].va + ss[|ss| - 1].span)
  }

  predicate SectionsOk(b: Bytes, p: Pe) {
    && p.sectionAlignment > 0 && p.opt + 60 <= |b|
    && (forall i :: 0 <= i < |p.sections| ==> SectionOk(p, p.sections[i], |b|))
    && (forall i, j :: 0 <= i < j < |p.sections| ==>
          && !Overlap(p.sections[i].va, p.sections[i].span, p.sections[j].va, p.sections[j].span)
          && !Overlap(p.sections[i].rp, p.sections[i].rs, p.sections[j].rp, p.sections[j].rs))
    && U32(b, p.opt + 56) >= Align(EndOf(p.sections), p.sectionAlignment)
  }

  function Parse(b: Bytes): Option<Pe> {
    if HeaderOk(b) && SectionsOk(b, HeaderOf(b)) then Some(HeaderOf(b)) else None
  }

  function Directory(b: Bytes, p: Pe, index: nat): (nat, nat)
    requires index < 16 && p.opt + 224 <= |b|
  {
    (U32(b, p.opt + 96 + 8 * index), U32(b, p.opt + 100 + 8 * index))
  }

  // ---- Addresses ----

  predicate InRaw(s: Section, rva: nat, length: nat) { s.va <= rva && rva + length <= s.va + s.rs }

  function Backing(ss: seq<Section>, rva: nat, length: nat): Option<Section> {
    if ss == [] then None else if InRaw(ss[0], rva, length) then Some(ss[0]) else Backing(ss[1..], rva, length)
  }

  function Offset(p: Pe, rva: nat, length: nat): Option<nat> {
    if rva < p.headers && rva + length <= p.headers then Some(rva)
    else match Backing(p.sections, rva, length)
         case None => None
         case Some(s) => if s.va <= rva then Some(s.rp + rva - s.va) else None
  }

  /** A NUL-terminated ASCII string of fewer than `left` bytes. */
  function StringFrom(b: Bytes, p: Pe, rva: nat, left: nat): Option<Bytes>
    decreases left
  {
    if left == 0 then None
    else match Offset(p, rva, 1)
         case None => None
         case Some(o) =>
           if o >= |b| || b[o] >= 128 then None
           else if b[o] == 0 then Some([])
           else match StringFrom(b, p, rva + 1, left - 1)
                case None => None
                case Some(rest) => Some([b[o]] + rest)
  }

  const STRING_LIMIT := 4096

  function StringAt(b: Bytes, p: Pe, rva: nat): Option<Bytes> { StringFrom(b, p, rva, STRING_LIMIT) }

  /** The loader writes here, so the cell must be initialized data inside the declared table. */
  predicate IatOk(b: Bytes, p: Pe, rva: nat)
    requires p.opt + 224 <= |b|
  {
    match Backing(p.sections, rva, 4)
    case None => false
    case Some(s) =>
      && IsInitializedData(s.flags)
      && var (start, size) := Directory(b, p, 12);
         start == 0 || (start <= rva && rva + 4 <= start + size)
  }

  /** Not code, not executable; readable and initialized. */
  predicate IsInitializedData(flags: nat) {
    flags / 0x20 % 2 == 0 && flags / 0x2000_0000 % 2 == 0 && flags / 0x4000_0000 % 2 == 1 && flags / 0x40 % 2 == 1
  }

  // ---- Imports ----

  /** One import: its lookup value, its name unless it is an ordinal, and its address-table cell. */
  datatype Entry = Entry(value: nat, symbol: Option<Bytes>, iat: nat)

  datatype Descriptor = Descriptor(dll: Bytes, entries: seq<Entry>)

  const BY_ORDINAL := 0x8000_0000
  const MAX_IMPORTS := 65536

  function SymbolAt(b: Bytes, p: Pe, value: nat): Option<Option<Bytes>> {
    if value >= BY_ORDINAL then if value - BY_ORDINAL >= 0x1_0000 then None else Some(None)
    else if Offset(p, value, 2).None? then None
    else match StringAt(b, p, value + 2)
         case None => None
         case Some(name) => if name == [] then None else Some(Some(name))
  }

  function Value32(b: Bytes, p: Pe, rva: nat): Option<nat> {
    match Offset(p, rva, 4)
    case None => None
    case Some(o) => if o + 4 <= |b| then Some(U32(b, o)) else None
  }

  datatype Parsed = Parsed(entries: seq<Entry>, claimed: set<nat>)

  /** The entries of one descriptor; `claimed` are the cells taken so far. */
  function Entries(b: Bytes, p: Pe, lookup: nat, ft: nat, claimed: set<nat>, left: nat): Option<Parsed>
    requires p.opt + 224 <= |b|
    decreases left
  {
    if left == 0 then None
    else match Value32(b, p, lookup)
         case None => None
         case Some(value) =>
           if !IatOk(b, p, ft) then None
           else if value == 0 then Some(Parsed([], claimed))
           else if ft in claimed || |claimed| >= MAX_IMPORTS then None
           else match SymbolAt(b, p, value)
                case None => None
                case Some(symbol) =>
                  match Entries(b, p, lookup + 4, ft + 4, claimed + {ft}, left - 1)
                  case None => None
                  case Some(rest) => Some(Parsed([Entry(value, symbol, ft)] + rest.entries, rest.claimed))
  }

  datatype Raw = Raw(oft: nat, stamp: nat, chain: nat, name: nat, ft: nat)

  function RawAt(b: Bytes, at: nat): Raw
    requires at + 20 <= |b|
  {
    Raw(U32(b, at), U32(b, at + 4), U32(b, at + 8), U32(b, at + 12), U32(b, at + 16))
  }

  predicate RawOk(r: Raw) {
    r.name != 0 && r.ft != 0 && r.ft % 4 == 0 && r.oft % 4 == 0 && (r.oft == 0 ==> r.stamp == 0)
  }

  predicate DllOk(name: Bytes) {
    name != [] && forall i :: 0 <= i < |name| ==> name[i] != 47 && name[i] != 92 && name[i] != 58
  }

  const EMPTY := Raw(0, 0, 0, 0, 0)

  function Descriptors(b: Bytes, p: Pe, at: nat, claimed: set<nat>, left: nat): Option<seq<Descriptor>>
    requires p.opt + 224 <= |b|
    decreases left
  {
    if left == 0 || at + 20 > |b| then None
    else
      var r := RawAt(b, at);
      if r == EMPTY then Some([])
      else if !RawOk(r) then None
      else match StringAt(b, p, r.name)
           case None => None
           case Some(dll) =>
             if !DllOk(dll) then None
             else match Entries(b, p, if r.oft != 0 then r.oft else r.ft, r.ft, claimed, MAX_IMPORTS)
                  case None => None
                  case Some(parsed) =>
                    if parsed.entries == [] then None
                    else match Descriptors(b, p, at + 20, parsed.claimed, left - 1)
                         case None => None
                         case Some(rest) => Some([Descriptor(dll, parsed.entries)] + rest)
  }

  function Min(a: nat, b: nat): nat { if a < b then a else b }

  function Imports(b: Bytes, p: Pe): Option<seq<Descriptor>>
    requires p.opt + 224 <= |b|
  {
    var (rva, size) := Directory(b, p, 1);
    if rva == 0 || size < 20 then None
    else match Offset(p, rva, size)
         case None => None
         case Some(at) => Descriptors(b, p, at, {}, Min(size / 20, 4096))
  }

  /** One import as the loader binds it: which library, which symbol or ordinal, into which cell. */
  datatype Binding = Binding(dll: Bytes, value: nat, symbol: Option<Bytes>, iat: nat)

  function BindAll(dll: Bytes, es: seq<Entry>): (r: seq<Binding>)
    ensures |r| == |es|
  {
    if es == [] then [] else [Binding(dll, es[0].value, es[0].symbol, es[0].iat)] + BindAll(dll, es[1..])
  }

  function Flatten(ds: seq<Descriptor>): seq<Binding> {
    if ds == [] then [] else BindAll(ds[0].dll, ds[0].entries) + Flatten(ds[1..])
  }

  // ---- Facts about the parser ----

  lemma ParsedFits(b: Bytes)
    requires Parse(b).Some?
    ensures var p := Parse(b).value;
      && p.opt + 224 <= p.table && p.table + 40 * p.count <= p.headers <= |b| && p.opt == p.pe + 24 && |p.sections| == p.count
      && p.pe == U32(b, 60) && SectionsOk(b, p) && p.fileAlignment > 0 && p.count >= 1
  {
  }

  lemma {:induction false} EndCovers(ss: seq<Section>, i: nat)
    requires i < |ss|
    ensures ss[i].va + ss[i].span <= EndOf(ss)
  {
    if i < |ss| - 1 {
      EndCovers(ss[..|ss| - 1], i);
    }
  }

  lemma {:induction false} BackingIs(ss: seq<Section>, rva: nat, length: nat)
    ensures Backing(ss, rva, length).Some? ==>
      Backing(ss, rva, length).value in ss && InRaw(Backing(ss, rva, length).value, rva, length)
    ensures Backing(ss, rva, length).None? ==> forall i :: 0 <= i < |ss| ==> !InRaw(ss[i], rva, length)
  {
    if ss != [] && !InRaw(ss[0], rva, length) {
      BackingIs(ss[1..], rva, length);
      forall i | 0 < i < |ss| && Backing(ss, rva, length).None? ensures !InRaw(ss[i], rva, length) {
        assert ss[i] == ss[1..][i - 1];
      }
    }
  }

  lemma {:induction false} BackingPrefix(ss: seq<Section>, more: seq<Section>, rva: nat, length: nat)
    ensures Backing(ss, rva, length).Some? ==> Backing(ss + more, rva, length) == Backing(ss, rva, length)
    ensures Backing(ss, rva, length).None? ==> Backing(ss + more, rva, length) == Backing(more, rva, length)
  {
    if ss == [] {
      assert ss + more == more;
    } else {
      assert (ss + more)[1..] == ss[1..] + more;
      BackingPrefix(ss[1..], more, rva, length);
    }
  }
}
