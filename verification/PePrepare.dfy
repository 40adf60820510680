/**
 Preparing an image: a new import section is appended, the header is adjusted, and what the
 loader binds stays the same but for the rerouted libraries.
 */
module PePrepare {
  import opened Options
  import opened ByteStrings
  import opened PeFormat
  import opened PeRoute

  // ---- Patching bytes ----

  function Overlay(b: Bytes, at: nat, x: Bytes): (r: Bytes)
    requires at + |x| <= |b|
    ensures |r| == |b|
  {
    b[..at] + x + b[at + |x|..]
  }

  lemma OverlayByte(b: Bytes, at: nat, x: Bytes, k: nat)
    requires at + |x| <= |b| && k < |b|
    ensures Overlay(b, at, x)[k] == if at <= k < at + |x| then x[k - at] else b[k]
  {
  }

  lemma Same16(b: Bytes, c: Bytes, at: nat)
    requires at + 2 <= |b| && at + 2 <= |c| && forall k :: at <= k < at + 2 ==> b[k] == c[k]
    ensures U16(b, at) == U16(c, at)
  {
    assert b[at..at + 2] == c[at..at + 2];
  }

  lemma Same32(b: Bytes, c: Bytes, at: nat)
    requires at + 4 <= |b| && at + 4 <= |c| && forall k :: at <= k < at + 4 ==> b[k] == c[k]
    ensures U32(b, at) == U32(c, at)
  {
    assert b[at..at + 4] == c[at..at + 4];
  }

  /** A word that a patch wrote is read back. */
  lemma Patched32(b: Bytes, at: nat, words: seq<nat>, i: nat)
    requires at + 4 * |words| <= |b| && b[at..at + 4 * |words|] == Words(words) && i < |words| && words[i] < Pow256(4)
    ensures U32(b, at + 4 * i) == words[i]
  {
    hide Words;
    WordAt(words, i);
    Slice(b, at, at + 4 * |words|, 4 * i, 4 * i + 4);
  }

  lemma Slice(b: Bytes, from: nat, to: nat, i: nat, j: nat)
    requires from <= to <= |b| && i <= j <= to - from
    ensures b[from..to][i..j] == b[from + i..from + j]
  {
    var x, y := b[from..to][i..j], b[from + i..from + j];
    forall k | 0 <= k < |x| ensures x[k] == y[k] {
      assert x[k] == b[from..to][i + k] == b[from + (i + k)];
    }
  }

  // ---- Which bytes a preparation may change ----

  predicate InField(k: nat, at: nat, n: nat) { at <= k < at + n }

  function NewHeader(p: Pe): nat { p.table + 40 * p.count }

  /** The header fields: section count, sizes, checksum, two directories and the new section header. */
  predicate InHeaderFields(p: Pe, k: nat) {
    || InField(k, p.pe + 6, 2) || InField(k, p.opt + 8, 4) || InField(k, p.opt + 56, 4) || InField(k, p.opt + 64, 4)
    || InField(k, p.opt + 104, 8) || InField(k, p.opt + 184, 8) || InField(k, NewHeader(p), 40)
  }

  predicate InCell(p: Pe, c: Cell, k: nat) {
    var o := Offset(p, c.iat, 4);
    o.Some? && InField(k, o.value, 4)
  }

  ghost predicate InCells(p: Pe, cells: seq<Cell>, k: nat) {
    exists j :: 0 <= j < |cells| && InCell(p, cells[j], k)
  }

  ghost predicate Rewritten(p: Pe, cells: seq<Cell>, k: nat) { InHeaderFields(p, k) || InCells(p, cells, k) }

  // ---- The new image ----

  /** The numbers a preparation works with. */
  datatype Layout = Layout(rva: nat, raw: nat, rawSize: nat, imageSize: nat)

  /** The finished image, field by field. */
  ghost predicate IsPrepared(b: Bytes, p: Pe, cells: seq<Cell>, gs: seq<Group>, pl: Payload, l: Layout, out: Bytes) {
    && |out| == l.raw + l.rawSize && |b| <= l.raw && |pl.bytes| <= l.rawSize
    && (forall k :: 0 <= k < |b| && !Rewritten(p, cells, k) ==> out[k] == b[k])
    && out[l.raw..l.raw + |pl.bytes|] == pl.bytes
    && NewHeader(p) + 40 <= |out| && p.opt + 192 <= |out| && p.pe + 8 <= |out|
    && out[p.pe + 6..p.pe + 8] == LE(p.count + 1, 2)
    && p.opt + 12 <= |b| && out[p.opt + 8..p.opt + 12] == LE(U32(b, p.opt + 8) + l.rawSize, 4)
    && out[p.opt + 104..p.opt + 112] == Words([l.rva, HeaderSize(gs)])
    && out[NewHeader(p) + 8..NewHeader(p) + 24] == Words([|pl.bytes|, l.rva, l.rawSize, l.raw])
    && out[NewHeader(p) + 36..NewHeader(p) + 40] == Words([0x4000_0040])
  }

  predicate LayoutOk(p: Pe, size: nat, payload: nat, l: Layout) {
    && p.sectionAlignment > 0 && p.fileAlignment > 0
    && l.rva == Align(EndOf(p.sections), p.sectionAlignment) && l.raw == Align(size, p.fileAlignment)
    && l.rawSize == Align(payload, p.fileAlignment) && l.imageSize == Align(l.rva + payload, p.sectionAlignment)
    && l.raw + l.rawSize <= LIMIT32 && l.imageSize <= LIMIT32
  }

  /** There is room for one more section header in front of everything. */
  predicate HasSlack(b: Bytes, p: Pe) {
    && NewHeader(p) + 40 <= p.headers <= |b|
    && (forall i :: 0 <= i < |p.sections| ==> p.sections[i].rs != 0 ==> NewHeader(p) + 40 <= p.sections[i].rp)
    && AllZero(b[NewHeader(p)..NewHeader(p) + 40])
  }

  // ---- Reading the new image's header ----

  ghost predicate Accepted(b: Bytes, p: Pe, cells: seq<Cell>, gs: seq<Group>, pl: Payload, l: Layout, out: Bytes) {
    && Parse(b) == Some(p) && HasSlack(b, p) && LayoutOk(p, |b|, |pl.bytes|, l)
    && PayloadIs(gs, l.rva, pl) && GroupsOk(gs) && IsPrepared(b, p, cells, gs, pl, l, out)
    && (forall j :: 0 <= j < |cells| ==> Backing(p.sections, cells[j].iat, 4).Some?)
  }

  function NewSection(payload: nat, l: Layout): Section { Section(l.rva, Max(payload, l.rawSize), l.raw, l.rawSize, 0x4000_0040) }

  /** Address-table cells lie behind the headers. */
  lemma CellsBehindHeaders(b: Bytes, p: Pe, cells: seq<Cell>, k: nat)
    requires Parse(b) == Some(p) && k < p.headers
    requires forall j :: 0 <= j < |cells| ==> Backing(p.sections, cells[j].iat, 4).Some?
    ensures !InCells(p, cells, k)
  {
    ParsedFits(b);
    forall j | 0 <= j < |cells| ensures !InCell(p, cells[j], k) {
      BackingIs(p.sections, cells[j].iat, 4);
      var s := Backing(p.sections, cells[j].iat, 4).value;
      var i :| 0 <= i < |p.sections| && p.sections[i] == s;
      assert SectionOk(p, p.sections[i], |b|);
    }
  }

  /** Header bytes outside the listed fields are the old ones. */
  lemma HeaderByteKept(b: Bytes, p: Pe, cells: seq<Cell>, gs: seq<Group>, pl: Payload, l: Layout, out: Bytes, k: nat)
    requires Accepted(b, p, cells, gs, pl, l, out) && k < p.headers && !InHeaderFields(p, k)
    ensures k < |b| && k < |out| && out[k] == b[k]
  {
    hide PayloadIs, GroupsOk, LayoutOk, Parse, InHeaderFields, InCells;
    ParsedFits(b);
    CellsBehindHeaders(b, p, cells, k);
  }

  lemma Field32Kept(b: Bytes, p: Pe, cells: seq<Cell>, gs: seq<Group>, pl: Payload, l: Layout, out: Bytes, at: nat)
    requires Accepted(b, p, cells, gs, pl, l, out) && at + 4 <= p.headers
    requires forall k :: at <= k < at + 4 ==> !InHeaderFields(p, k)
    ensures at + 4 <= |b| && at + 4 <= |out| && U32(out, at) == U32(b, at)
  {
    hide Accepted, InHeaderFields;
    forall k | at <= k < at + 4 ensures k < |b| && k < |out| && out[k] == b[k] {
      HeaderByteKept(b, p, cells, gs, pl, l, out, k);
    }
    assert b[at + 3] == out[at + 3];
    Same32(b, out, at);
  }

  lemma Field16Kept(b: Bytes, p: Pe, cells: seq<Cell>, gs: seq<Group>, pl: Payload, l: Layout, out: Bytes, at: nat)
    requires Accepted(b, p, cells, gs, pl, l, out) && at + 2 <= p.headers
    requires forall k :: at <= k < at + 2 ==> !InHeaderFields(p, k)
    ensures at + 2 <= |b| && at + 2 <= |out| && U16(out, at) == U16(b, at)
  {
    hide Accepted, InHeaderFields;
    forall k | at <= k < at + 2 ensures k < |b| && k < |out| && out[k] == b[k] {
      HeaderByteKept(b, p, cells, gs, pl, l, out, k);
    }
    assert b[at + 1] == out[at + 1];
    Same16(b, out, at);
  }

  /**
   Adding the new section's size to the initialized-data size leaves bytes 60 to 63, where the
   loader finds the PE header, as they are.
   */
  predicate PointerStays(b: Bytes, p: Pe, rawSize: nat)
    requires p.opt + 12 <= |b| && |b| >= 64
  {
    var field := LE(U32(b, p.opt + 8) + rawSize, 4);
    forall k :: 60 <= k < 64 && InField(k, p.opt + 8, 4) ==> field[k - (p.opt + 8)] == b[k]
  }

  /** Only a PE header at one of six offsets inside the DOS header can lose the pointer. */
  lemma PointerStaysElsewhere(b: Bytes, rawSize: nat)
    requires Parse(b).Some? && rawSize % 256 == 0
    ensures var p := Parse(b).value;
      p.opt + 12 <= |b| && |b| >= 64 && (PointerStays(b, p, rawSize) || 25 <= p.pe <= 30)
  {
    hide Parse, U32, LE;
    ParsedFits(b);
    Signature(b);
    var p := Parse(b).value;
    LowByte(b, p.opt + 8, rawSize);
  }

  lemma LowByte(b: Bytes, at: nat, more: nat)
    requires at + 4 <= |b| && more % 256 == 0
    ensures LE(U32(b, at) + more, 4)[0] == b[at]
  {
    var s := b[at..at + 4];
    assert s[0] == b[at] && U32(b, at) == s[0] + 256 * UnLE(s[1..]);
    assert (U32(b, at) + more) % 256 == s[0];
  }

  /** A section count stored in the pointer's own bytes can only be 54, and then the header starts there too. */
  lemma CountInPointer(b: Bytes)
    requires Parse(b).Some? && 53 <= Parse(b).value.pe <= 57
    ensures Parse(b).value.pe == 54
  {
    hide SectionsOk;
    var pe := Parse(b).value.pe;
    Bytes4(b, 60);
    assert b[pe..pe + 4][3] == b[pe + 3];
    Bytes2(b, pe + 4);
    Bytes2(b, pe + 6);
  }

  lemma Bytes4(b: Bytes, at: nat)
    requires at + 4 <= |b|
    ensures U32(b, at) == (b[at] as int) + 256 * (b[at + 1] as int) + 65536 * (b[at + 2] as int) + 16777216 * (b[at + 3] as int)
  {
    var s := b[at..at + 4];
    assert s[1..][1..] == s[2..] && s[2..][1..] == s[3..] && s[3..][1..] == [];
    assert UnLE(s[3..]) == s[3] && UnLE(s[2..]) == (s[2] as int) + 256 * UnLE(s[3..]);
    assert UnLE(s[1..]) == (s[1] as int) + 256 * UnLE(s[2..]);
  }

  lemma Bytes2(b: Bytes, at: nat)
    requires at + 2 <= |b|
    ensures U16(b, at) == (b[at] as int) + 256 * (b[at + 1] as int)
  {
    var s := b[at..at + 2];
    assert s[1..][1..] == [];
    assert UnLE(s[1..]) == s[1];
  }

  lemma Signature(b: Bytes)
    requires Parse(b).Some?
    ensures |b| >= 64 && Parse(b).value.pe == U32(b, 60)
    ensures var pe := U32(b, 60); pe + 8 <= |b| && b[pe] == 80 && b[pe + 1] == 69 && U16(b, pe + 6) == Parse(b).value.count
  {
    hide SectionsOk;
    var pe := U32(b, 60);
    assert b[pe..pe + 4][0] == 80 && b[pe..pe + 4][1] == 69;
  }

  /** Patching that count makes the output's header unreadable, so such an image is refused. */
  lemma CountInPointerRefused(b: Bytes, p: Pe, cells: seq<Cell>, gs: seq<Group>, pl: Payload, l: Layout, out: Bytes)
    requires Accepted(b, p, cells, gs, pl, l, out) && 53 <= p.pe <= 57
    ensures Parse(out).None?
  {
    hide U32, U16, Parse, Accepted, InHeaderFields;
    HeaderSizes(b, p, cells, gs, pl, l, out);
    CountInPointer(b);
    ParsedFits(b);
    Signature(b);
    PointerBytesClear(p);
    HeaderByteKept(b, p, cells, gs, pl, l, out, 55);
    HeaderByteKept(b, p, cells, gs, pl, l, out, 62);
    HeaderByteKept(b, p, cells, gs, pl, l, out, 63);
    CountRead(b, p, cells, gs, pl, l, out);
    Bytes4(b, 60);
    Bytes2(b, 60);
    Bytes2(out, 60);
    Bytes4(out, 60);
    if Parse(out).Some? {
      Signature(out);
    }
  }

  lemma PointerBytesClear(p: Pe)
    requires p.pe == 54 && p.opt == 78 && p.opt + 224 <= p.table
    ensures !InHeaderFields(p, 55) && !InHeaderFields(p, 62) && !InHeaderFields(p, 63)
  {
  }

  /** For every accepted output the pointer is the old one exactly if the patched size leaves its bytes alone. */
  lemma PointerKeptIff(b: Bytes, p: Pe, cells: seq<Cell>, gs: seq<Group>, pl: Payload, l: Layout, out: Bytes)
    requires Accepted(b, p, cells, gs, pl, l, out) && Parse(out).Some?
    ensures |b| >= 64 && p.opt + 12 <= |b| && |out| >= 64
    ensures U32(out, 60) == p.pe <==> PointerStays(b, p, l.rawSize)
  {
    hide U32, Parse, Accepted, InHeaderFields, LE;
    HeaderSizes(b, p, cells, gs, pl, l, out);
    ParsedFits(b);
    Signature(b);
    Signature(out);
    if 53 <= p.pe <= 57 {
      CountInPointerRefused(b, p, cells, gs, pl, l, out);
      assert false;
    } else {
      var field := LE(U32(b, p.opt + 8) + l.rawSize, 4);
      InitializedRead(b, p, cells, gs, pl, l, out);
      forall k | 60 <= k < 64 ensures out[k] == if InField(k, p.opt + 8, 4) then field[k - (p.opt + 8)] else b[k] {
        if InField(k, p.opt + 8, 4) {
          assert out[k] == out[p.opt + 8..p.opt + 12][k - (p.opt + 8)];
        } else {
          PointerByte(p, k);
          HeaderByteKept(b, p, cells, gs, pl, l, out, k);
        }
      }
      Bytes4(b, 60);
      Bytes4(out, 60);
    }
  }

  lemma PointerByte(p: Pe, k: nat)
    requires p.opt == p.pe + 24 && p.opt + 224 <= p.table && 60 <= k < 64 && !(53 <= p.pe <= 57)
    ensures InHeaderFields(p, k) <==> InField(k, p.opt + 8, 4)
  {
  }

  lemma InitializedRead(b: Bytes, p: Pe, cells: seq<Cell>, gs: seq<Group>, pl: Payload, l: Layout, out: Bytes)
    requires Accepted(b, p, cells, gs, pl, l, out)
    ensures p.opt + 12 <= |b| && p.opt + 12 <= |out| && out[p.opt + 8..p.opt + 12] == LE(U32(b, p.opt + 8) + l.rawSize, 4)
  {
    hide PayloadIs, GroupsOk, LayoutOk, Parse, Rewritten, Words, HeaderSize, LE, U32, HasSlack, NewHeader, Backing;
  }

  lemma SectionKept(b: Bytes, p: Pe, cells: seq<Cell>, gs: seq<Group>, pl: Payload, l: Layout, out: Bytes, i: nat)
    requires Accepted(b, p, cells, gs, pl, l, out) && i < p.count
    ensures p.table + 40 * i + 40 <= |b| && p.table + 40 * i + 40 <= |out|
    ensures SectionAt(out, p.table + 40 * i) == SectionAt(b, p.table + 40 * i)
  {
    hide PayloadIs, GroupsOk, LayoutOk, IsPrepared, Parse;
    ParsedFits(b);
    var at := p.table + 40 * i;
    assert at + 40 <= NewHeader(p);
    Field32Kept(b, p, cells, gs, pl, l, out, at + 8);
    Field32Kept(b, p, cells, gs, pl, l, out, at + 12);
    Field32Kept(b, p, cells, gs, pl, l, out, at + 16);
    Field32Kept(b, p, cells, gs, pl, l, out, at + 20);
    Field32Kept(b, p, cells, gs, pl, l, out, at + 36);
    HeaderSizes(b, p, cells, gs, pl, l, out);
  }

  lemma HeaderSizes(b: Bytes, p: Pe, cells: seq<Cell>, gs: seq<Group>, pl: Payload, l: Layout, out: Bytes)
    requires Accepted(b, p, cells, gs, pl, l, out)
    ensures Parse(b) == Some(p) && NewHeader(p) + 40 <= p.headers <= |b| <= |out|
  {
    hide PayloadIs, GroupsOk, LayoutOk, Parse;
  }

  lemma NewSectionRead(b: Bytes, p: Pe, cells: seq<Cell>, gs: seq<Group>, pl: Payload, l: Layout, out: Bytes)
    requires Accepted(b, p, cells, gs, pl, l, out)
    ensures NewHeader(p) + 40 <= |out| && SectionAt(out, NewHeader(p)) == NewSection(|pl.bytes|, l)
  {
    hide PayloadIs, GroupsOk, Parse, Words, Rewritten, Align;
    PowValues();
    LayoutBounds(p, |b|, |pl.bytes|, l);
    var at := NewHeader(p);
    var words := [|pl.bytes|, l.rva, l.rawSize, l.raw];
    FourRead(out, at + 8, words);
    Patched32(out, at + 36, [0x4000_0040], 0);
  }

  lemma FourRead(b: Bytes, at: nat, w: seq<nat>)
    requires |w| == 4 && at + 16 <= |b| && b[at..at + 16] == Words(w) && forall i :: 0 <= i < 4 ==> w[i] < Pow256(4)
    ensures U32(b, at) == w[0] && U32(b, at + 4) == w[1] && U32(b, at + 8) == w[2] && U32(b, at + 12) == w[3]
  {
    hide Words;
    Patched32(b, at, w, 0);
    Patched32(b, at, w, 1);
    Patched32(b, at, w, 2);
    Patched32(b, at, w, 3);
  }

  lemma LayoutBounds(p: Pe, size: nat, payload: nat, l: Layout)
    requires LayoutOk(p, size, payload, l)
    ensures l.rva >= EndOf(p.sections) && l.raw >= size && l.rawSize >= payload && l.rva + payload <= l.imageSize <= LIMIT32
    ensures l.rva < 0x1_0000_0000 && l.raw < 0x1_0000_0000 && l.rawSize < 0x1_0000_0000 && payload < 0x1_0000_0000
  {
    AlignBounds(EndOf(p.sections), p.sectionAlignment);
    AlignBounds(size, p.fileAlignment);
    AlignBounds(payload, p.fileAlignment);
    AlignBounds(l.rva + payload, p.sectionAlignment);
  }

  /** The new image parses to the old header with one more section. */
  lemma HeaderRead(b: Bytes, p: Pe, cells: seq<Cell>, gs: seq<Group>, pl: Payload, l: Layout, out: Bytes)
    requires Accepted(b, p, cells, gs, pl, l, out) && Parse(out).Some?
    requires |b| >= 64 && p.opt + 12 <= |b| && PointerStays(b, p, l.rawSize)
    ensures Parse(out).value == p.(count := p.count + 1, sections := p.sections + [NewSection(|pl.bytes|, l)])
  {
    hide PayloadIs, GroupsOk, LayoutOk, SectionsOk, SectionAt, PowerOfTwo, Accepted, InHeaderFields, PointerStays;
    HeaderSizes(b, p, cells, gs, pl, l, out);
    ParsedFits(b);
    FieldsClear(b);
    PointerKeptIff(b, p, cells, gs, pl, l, out);
    Field16Kept(b, p, cells, gs, pl, l, out, p.pe + 20);
    Field32Kept(b, p, cells, gs, pl, l, out, p.opt + 32);
    Field32Kept(b, p, cells, gs, pl, l, out, p.opt + 36);
    Field32Kept(b, p, cells, gs, pl, l, out, p.opt + 60);
    CountRead(b, p, cells, gs, pl, l, out);
    var q := Parse(out).value;
    assert q.pe == p.pe && q.opt == p.opt && q.table == p.table && q.headers == p.headers && q.count == p.count + 1;
    forall i | 0 <= i < q.count ensures q.sections[i] == (p.sections + [NewSection(|pl.bytes|, l)])[i] {
      if i < p.count {
        SectionKept(b, p, cells, gs, pl, l, out, i);
      } else {
        NewSectionRead(b, p, cells, gs, pl, l, out);
      }
    }
  }

  lemma FieldsClear(b: Bytes)
    requires Parse(b).Some?
    ensures var p := Parse(b).value;
      && (forall k :: p.pe + 20 <= k < p.pe + 22 ==> !InHeaderFields(p, k))
      && (forall k :: p.opt + 32 <= k < p.opt + 40 ==> !InHeaderFields(p, k))
      && (forall k :: p.opt + 60 <= k < p.opt + 64 ==> !InHeaderFields(p, k))
      && (forall k :: p.opt + 192 <= k < p.opt + 200 ==> !InHeaderFields(p, k))
  {
    hide HeaderOk, SectionsOk;
    ParsedFits(b);
  }

  lemma CountRead(b: Bytes, p: Pe, cells: seq<Cell>, gs: seq<Group>, pl: Payload, l: Layout, out: Bytes)
    requires Accepted(b, p, cells, gs, pl, l, out)
    ensures p.pe + 8 <= |out| && U16(out, p.pe + 6) == p.count + 1
  {
    hide PayloadIs, GroupsOk, LayoutOk;
    PowValues();
    ParsedFits(b);
    CountSmall(b);
    UnLEOfLE(p.count + 1, 2);
  }

  lemma CountSmall(b: Bytes)
    requires Parse(b).Some?
    ensures Parse(b).value.count < 96
  {
    hide SectionsOk;
  }
}
