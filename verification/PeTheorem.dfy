/**
 What the loader binds in a prepared image.
 */
module PeTheorem {
  import opened Options
  import opened ByteStrings
  import opened PeFormat
  import opened PeRoute
  import opened PePrepare

  /** The header of the prepared image. */
  function NewPe(p: Pe, payload: nat, l: Layout): Pe {
    p.(count := p.count + 1, sections := p.sections + [NewSection(payload, l)])
  }

  // ---- Addresses ----

  lemma OldOffset(p: Pe, payload: nat, l: Layout, rva: nat, length: nat)
    requires Offset(p, rva, length).Some?
    ensures Offset(NewPe(p, payload, l), rva, length) == Offset(p, rva, length)
  {
    BackingPrefix(p.sections, [NewSection(payload, l)], rva, length);
  }

  /** Addresses in the new section map into it: no old section reaches that far. */
  lemma NewOffset(b: Bytes, p: Pe, payload: nat, l: Layout, rva: nat, length: nat)
    requires Parse(b) == Some(p) && LayoutOk(p, |b|, payload, l) && length > 0
    requires l.rva <= rva && rva + length <= l.rva + l.rawSize
    ensures Offset(NewPe(p, payload, l), rva, length) == Some(l.raw + rva - l.rva)
  {
    ParsedFits(b);
    LayoutBounds(p, |b|, payload, l);
    forall i | 0 <= i < |p.sections| ensures !InRaw(p.sections[i], rva, length) {
      EndCovers(p.sections, i);
      SpanCovers(b, i);
    }
    NotBacked(p.sections, rva, length);
    BackingPrefix(p.sections, [NewSection(payload, l)], rva, length);
    EndCovers(p.sections, 0);
    assert SectionOk(p, p.sections[0], |b|);
  }

  lemma {:induction false} NotBacked(ss: seq<Section>, rva: nat, length: nat)
    requires forall i :: 0 <= i < |ss| ==> !InRaw(ss[i], rva, length)
    ensures Backing(ss, rva, length).None?
  {
    if ss != [] {
      NotBacked(ss[1..], rva, length);
    }
  }

  lemma SpanCovers(b: Bytes, i: nat)
    requires Parse(b).Some? && i < |Parse(b).value.sections|
    ensures Parse(b).value.sections[i].rs <= Parse(b).value.sections[i].span
  {
    hide SectionsOk;
  }

  lemma {:induction false} OldString(b: Bytes, out: Bytes, p: Pe, payload: nat, l: Layout, rva: nat, left: nat, s: Bytes)
    requires StringFrom(b, p, rva, left) == Some(s) && |out| >= |b|
    requires forall a: nat :: rva <= a <= rva + |s| ==> StringByteKept(b, out, p, a)
    ensures StringFrom(out, NewPe(p, payload, l), rva, left) == Some(s)
    decreases left
  {
    OldOffset(p, payload, l, rva, 1);
    assert StringByteKept(b, out, p, rva);
    if s != [] {
      assert StringFrom(b, p, rva + 1, left - 1) == Some(s[1..]);
      OldString(b, out, p, payload, l, rva + 1, left - 1, s[1..]);
    }
  }

  ghost predicate StringByteKept(b: Bytes, out: Bytes, p: Pe, rva: nat) {
    var o := Offset(p, rva, 1);
    o.Some? && o.value < |b| && o.value < |out| ==> out[o.value] == b[o.value]
  }

  /** A string stored in the new section is read back. */
  lemma {:induction false} NewString(b: Bytes, p: Pe, payload: nat, l: Layout, out: Bytes, at: nat, s: Bytes, left: nat)
    requires Parse(b) == Some(p) && LayoutOk(p, |b|, payload, l) && |out| == l.raw + l.rawSize
    requires at + |s| + 1 <= l.rawSize && out[l.raw + at..l.raw + at + |s|] == s && out[l.raw + at + |s|] == 0
    requires (forall i :: 0 <= i < |s| ==> 0 < s[i] < 128) && |s| < left
    ensures StringFrom(out, NewPe(p, payload, l), l.rva + at, left) == Some(s)
    decreases left
  {
    hide LayoutOk, Parse, Offset;
    NewOffset(b, p, payload, l, l.rva + at, 1);
    assert Offset(NewPe(p, payload, l), l.rva + at, 1) == Some(l.raw + at);
    if s != [] {
      assert s == [s[0]] + s[1..];
      assert l.rva + at + 1 == l.rva + (at + 1);
      assert out[l.raw + at] == out[l.raw + at..l.raw + at + |s|][0] == s[0];
      Slice(out, l.raw + at, l.raw + at + |s|, 1, |s|);
      NewString(b, p, payload, l, out, at + 1, s[1..], left - 1);
    }
  }

  // ---- The payload in the new image ----

  lemma PayloadPlaced(b: Bytes, p: Pe, cells: seq<Cell>, gs: seq<Group>, pl: Payload, l: Layout, out: Bytes)
    requires Accepted(b, p, cells, gs, pl, l, out)
    ensures |out| == l.raw + l.rawSize && |pl.bytes| <= l.rawSize && out[l.raw..l.raw + |pl.bytes|] == pl.bytes
  {
    hide PayloadIs, GroupsOk, Parse, LayoutOk, Rewritten, Words, HeaderSize, LE, U32, HasSlack, NewHeader, Backing;
  }

  lemma SliceOf(b: Bytes, from: nat, x: Bytes, at: nat, n: nat)
    requires from + |x| <= |b| && b[from..from + |x|] == x && at + n <= |x|
    ensures b[from + at..from + at + n] == x[at..at + n]
  {
    var y, z := b[from + at..from + at + n], x[at..at + n];
    forall k | 0 <= k < n ensures y[k] == z[k] {
      assert b[from..from + |x|][at + k] == x[at + k];
    }
  }

  lemma PayloadSlice(b: Bytes, p: Pe, cells: seq<Cell>, gs: seq<Group>, pl: Payload, l: Layout, out: Bytes, at: nat, n: nat)
    requires Accepted(b, p, cells, gs, pl, l, out) && at + n <= |pl.bytes|
    ensures |out| == l.raw + l.rawSize && |pl.bytes| <= l.rawSize
    ensures out[l.raw + at..l.raw + at + n] == pl.bytes[at..at + n]
  {
    hide Accepted;
    PayloadPlaced(b, p, cells, gs, pl, l, out);
    SliceOf(out, l.raw, pl.bytes, at, n);
  }

  /** The parts of the payload. */
  lemma FourParts(a: Bytes, b: Bytes, c: Bytes, d: Bytes, whole: Bytes)
    requires whole == a + b + c + d
    ensures |whole| == |a| + |b| + |c| + |d|
    ensures whole[..|a|] == a && whole[|a|..|a| + |b|] == b && whole[|a| + |b| + |c|..] == d
  {
    assert whole == a + (b + (c + d));
    assert (b + (c + d))[..|b|] == b;
  }

  lemma PayloadParts(gs: seq<Group>, rva: nat, pl: Payload)
    requires PayloadIs(gs, rva, pl)
    ensures forall i :: 0 <= i < |gs| ==> gs[i].dll in pl.names
    ensures var w := DescriptorWords(gs, rva + pl.lookups, pl.names, |gs|) + [0, 0, 0, 0, 0];
      && 4 * |w| == HeaderSize(gs) <= |pl.bytes| && pl.bytes[..HeaderSize(gs)] == Words(w)
    ensures HeaderSize(gs) + |pl.strings| <= pl.lookups && pl.bytes[HeaderSize(gs)..HeaderSize(gs) + |pl.strings|] == pl.strings
    ensures pl.lookups + LookupSize(gs, |gs|) == |pl.bytes| && pl.bytes[pl.lookups..] == Words(LookupWords(gs, |gs|))
  {
    hide Words, Tabled, DescriptorWords, LookupWords, LookupSize;
    var w := DescriptorWords(gs, rva + pl.lookups, pl.names, |gs|) + [0, 0, 0, 0, 0];
    var pad: Bytes :| HeaderSize(gs) + |pl.strings| + |pad| == pl.lookups
                      && pl.bytes == Words(w) + pl.strings + pad + Words(LookupWords(gs, |gs|));
    assert |Words(w)| == HeaderSize(gs);
    FourParts(Words(w), pl.strings, pad, Words(LookupWords(gs, |gs|)), pl.bytes);
  }

  ghost predicate Words32(ws: seq<nat>) { forall i :: 0 <= i < |ws| ==> ws[i] < Pow256(4) }

  lemma {:induction false} LookupsFit(gs: seq<Group>, n: nat)
    requires n <= |gs| && GroupsOk(gs)
    ensures Words32(LookupWords(gs, n))
  {
    PowValues();
    if n > 0 {
      LookupsFit(gs, n - 1);
      assert GroupOk(gs[n - 1]);
    }
  }

  /** One lookup value of the new image. */
  lemma LookupRead(b: Bytes, p: Pe, cells: seq<Cell>, gs: seq<Group>, pl: Payload, l: Layout, out: Bytes, i: nat, k: nat)
    requires Accepted(b, p, cells, gs, pl, l, out) && i < |gs| && k <= |gs[i].values|
    ensures Value32(out, NewPe(p, |pl.bytes|, l), l.rva + pl.lookups + LookupSize(gs, i) + 4 * k)
            == Some(if k < |gs[i].values| then gs[i].values[k] else 0)
  {
    hide Words, PayloadIs, LayoutOk, Parse, LookupWords, LookupSize, GroupOk, HeaderSize, IsPrepared;
    var words := LookupWords(gs, |gs|);
    LookupWordAt(gs, |gs|, i, k);
    LookupsFit(gs, |gs|);
    PayloadParts(gs, l.rva, pl);
    var j := LookupSize(gs, i) / 4 + k;
    var at := pl.lookups + 4 * j;
    PayloadSlice(b, p, cells, gs, pl, l, out, pl.lookups, |pl.bytes| - pl.lookups);
    assert pl.bytes[pl.lookups..|pl.bytes|] == pl.bytes[pl.lookups..];
    Patched32(out, l.raw + pl.lookups, words, j);
    NewOffset(b, p, |pl.bytes|, l, l.rva + at, 4);
  }

  lemma {:induction false} DescriptorsFit(gs: seq<Group>, lookups: nat, names: map<Bytes, nat>, n: nat)
    requires n <= |gs| && lookups + LookupSize(gs, |gs|) <= LIMIT32
    requires forall i :: 0 <= i < |gs| ==> gs[i].dll in names && names[gs[i].dll] <= LIMIT32 && gs[i].iat <= LIMIT32
    ensures Words32(DescriptorWords(gs, lookups, names, n))
  {
    hide LookupSize;
    PowValues();
    if n > 0 {
      DescriptorsFit(gs, lookups, names, n - 1);
      LookupMonotone(gs, n - 1, |gs|);
    }
  }

  lemma {:induction false} LookupMonotone(gs: seq<Group>, i: nat, n: nat)
    requires i <= n <= |gs|
    ensures LookupSize(gs, i) <= LookupSize(gs, n)
    decreases n
  {
    if i < n {
      LookupMonotone(gs, i, n - 1);
    }
  }

  lemma NameStored(gs: seq<Group>, rva: nat, pl: Payload, i: nat)
    requires PayloadIs(gs, rva, pl) && i < |gs|
    ensures gs[i].dll in pl.names && StoredAt(Strings(pl.names, pl.strings), rva + HeaderSize(gs), gs[i].dll)
  {
    hide Words, StoredAt;
  }

  lemma NameFits(gs: seq<Group>, rva: nat, pl: Payload, i: nat)
    requires PayloadIs(gs, rva, pl) && i < |gs|
    ensures gs[i].dll in pl.names
    ensures var at := pl.names[gs[i].dll] - rva;
      && HeaderSize(gs) <= at && at + |gs[i].dll| + 1 <= HeaderSize(gs) + |pl.strings| <= |pl.bytes|
      && pl.bytes[at..at + |gs[i].dll|] == gs[i].dll && pl.bytes[at + |gs[i].dll|] == 0
  {
    hide Words, PayloadIs, HeaderSize, DescriptorWords, LookupWords, LookupSize;
    PayloadParts(gs, rva, pl);
    NameStored(gs, rva, pl, i);
    var dll := gs[i].dll;
    var base := HeaderSize(gs);
    var k := pl.names[dll] - (rva + base);
    Slice(pl.bytes, base, base + |pl.strings|, k, k + |dll|);
    assert pl.bytes[base..base + |pl.strings|][k + |dll|] == pl.bytes[base + k + |dll|];
  }

  /** All descriptor words of the new image, with the terminator. */
  lemma DescriptorTable(b: Bytes, p: Pe, cells: seq<Cell>, gs: seq<Group>, pl: Payload, l: Layout, out: Bytes)
    requires Accepted(b, p, cells, gs, pl, l, out)
    ensures forall i :: 0 <= i < |gs| ==> gs[i].dll in pl.names
    ensures var w := DescriptorWords(gs, l.rva + pl.lookups, pl.names, |gs|) + [0, 0, 0, 0, 0];
      && l.raw + 4 * |w| <= |out| && out[l.raw..l.raw + 4 * |w|] == Words(w) && Words32(w)
  {
    hide Words, PayloadIs, Parse, Readable, LookupSize, LookupWords, IsPrepared, HeaderSize, DescriptorWords;
    PowValues();
    PayloadParts(gs, l.rva, pl);
    LayoutBounds(p, |b|, |pl.bytes|, l);
    forall i | 0 <= i < |gs| ensures gs[i].dll in pl.names && pl.names[gs[i].dll] <= LIMIT32 && gs[i].iat <= LIMIT32 {
      NameFits(gs, l.rva, pl, i);
      assert GroupOk(gs[i]);
    }
    DescriptorsFit(gs, l.rva + pl.lookups, pl.names, |gs|);
    PayloadSlice(b, p, cells, gs, pl, l, out, 0, HeaderSize(gs));
    assert pl.bytes[0..HeaderSize(gs)] == pl.bytes[..HeaderSize(gs)];
  }

  /** One descriptor of the new image. */
  lemma DescriptorRead(b: Bytes, p: Pe, cells: seq<Cell>, gs: seq<Group>, pl: Payload, l: Layout, out: Bytes, i: nat)
    requires Accepted(b, p, cells, gs, pl, l, out) && i <= |gs|
    ensures l.raw + 20 * i + 20 <= |out|
    ensures i < |gs| ==>
      && gs[i].dll in pl.names
      && RawAt(out, l.raw + 20 * i) == Raw(l.rva + pl.lookups + LookupSize(gs, i), 0, 0, pl.names[gs[i].dll], gs[i].iat)
    ensures i == |gs| ==> RawAt(out, l.raw + 20 * i) == EMPTY
  {
    hide Accepted, Words, LookupSize, DescriptorWords, RawAt;
    DescriptorTable(b, p, cells, gs, pl, l, out);
    var body := DescriptorWords(gs, l.rva + pl.lookups, pl.names, |gs|);
    var w := body + [0, 0, 0, 0, 0];
    FiveRead(out, l.raw, w, 5 * i);
    assert l.raw + 4 * (5 * i) == l.raw + 20 * i;
    if i < |gs| {
      DescriptorWordAt(gs, l.rva + pl.lookups, pl.names, |gs|, i);
      assert w[5 * i] == body[5 * i] && w[5 * i + 1] == body[5 * i + 1] && w[5 * i + 2] == body[5 * i + 2]
             && w[5 * i + 3] == body[5 * i + 3] && w[5 * i + 4] == body[5 * i + 4];
    } else {
      assert 5 * i == |body|;
      assert w[5 * i] == 0 && w[5 * i + 1] == 0 && w[5 * i + 2] == 0 && w[5 * i + 3] == 0 && w[5 * i + 4] == 0;
    }
  }

  lemma FiveRead(b: Bytes, at: nat, w: seq<nat>, j: nat)
    requires at + 4 * |w| <= |b| && b[at..at + 4 * |w|] == Words(w) && j + 5 <= |w| && Words32(w)
    ensures RawAt(b, at + 4 * j) == Raw(w[j], w[j + 1], w[j + 2], w[j + 3], w[j + 4])
  {
    hide Words;
    Patched32(b, at, w, j);
    Patched32(b, at, w, j + 1);
    Patched32(b, at, w, j + 2);
    Patched32(b, at, w, j + 3);
    Patched32(b, at, w, j + 4);
  }

  lemma DllRead(b: Bytes, p: Pe, cells: seq<Cell>, gs: seq<Group>, pl: Payload, l: Layout, out: Bytes, i: nat)
    requires Accepted(b, p, cells, gs, pl, l, out) && i < |gs|
    ensures gs[i].dll in pl.names && StringAt(out, NewPe(p, |pl.bytes|, l), pl.names[gs[i].dll]) == Some(gs[i].dll)
  {
    hide Words, PayloadIs, Parse, LayoutOk, IsPrepared, StringFrom, HeaderSize;
    NameFits(gs, l.rva, pl, i);
    var dll := gs[i].dll;
    var at := pl.names[dll] - l.rva;
    assert GroupOk(gs[i]);
    PayloadSlice(b, p, cells, gs, pl, l, out, at, |dll|);
    PayloadSlice(b, p, cells, gs, pl, l, out, at + |dll|, 1);
    assert out[l.raw + at + |dll|] == out[l.raw + at + |dll|..l.raw + at + |dll| + 1][0];
    NewString(b, p, |pl.bytes|, l, out, at, dll, STRING_LIMIT);
  }

  // ---- The imports of the new image ----

  /** Every import name can be read in the new image as in the old one. */
  ghost predicate NamesKept(b: Bytes, p: Pe, out: Bytes, q: Pe, gs: seq<Group>) {
    forall i, k :: 0 <= i < |gs| && 0 <= k < |gs[i].values| ==> NameKept(b, p, out, q, gs[i].values[k])
  }

  ghost predicate NameKept(b: Bytes, p: Pe, out: Bytes, q: Pe, value: nat) {
    SymbolAt(b, p, value).Some? && SymbolAt(out, q, value) == SymbolAt(b, p, value)
  }

  function EntryOf(b: Bytes, p: Pe, g: Group, k: nat): Entry
    requires k < |g.values|
  {
    var s := SymbolAt(b, p, g.values[k]);
    Entry(g.values[k], if s.Some? then s.value else None, g.iat + 4 * k)
  }

  function EntriesFrom(b: Bytes, p: Pe, g: Group, k: nat): (r: seq<Entry>)
    requires k <= |g.values|
    ensures |r| == |g.values| - k
    decreases |g.values| - k
  {
    if k == |g.values| then [] else [EntryOf(b, p, g, k)] + EntriesFrom(b, p, g, k + 1)
  }

  lemma {:induction false} EntriesRead(b: Bytes, p: Pe, cells: seq<Cell>, gs: seq<Group>, pl: Payload, l: Layout, out: Bytes,
                                       i: nat, k: nat, claimed: set<nat>, left: nat)
    requires Accepted(b, p, cells, gs, pl, l, out) && i < |gs| && k <= |gs[i].values|
    requires NamesKept(b, p, out, NewPe(p, |pl.bytes|, l), gs) && p.opt + 224 <= |out|
    requires Entries(out, NewPe(p, |pl.bytes|, l), l.rva + pl.lookups + LookupSize(gs, i) + 4 * k, gs[i].iat + 4 * k, claimed, left).Some?
    ensures Entries(out, NewPe(p, |pl.bytes|, l), l.rva + pl.lookups + LookupSize(gs, i) + 4 * k, gs[i].iat + 4 * k, claimed, left)
              .value.entries == EntriesFrom(b, p, gs[i], k)
    decreases left
  {
    hide Accepted, IatOk, SymbolAt, LookupSize, Value32;
    var q := NewPe(p, |pl.bytes|, l);
    LookupRead(b, p, cells, gs, pl, l, out, i, k);
    GroupAt(b, p, cells, gs, pl, l, out, i, k);
    if k < |gs[i].values| {
      assert NameKept(b, p, out, q, gs[i].values[k]);
      var lookup := l.rva + pl.lookups + LookupSize(gs, i) + 4 * k;
      assert lookup + 4 == l.rva + pl.lookups + LookupSize(gs, i) + 4 * (k + 1);
      EntriesRead(b, p, cells, gs, pl, l, out, i, k + 1, claimed + {gs[i].iat + 4 * k}, left - 1);
    }
  }

  lemma GroupAt(b: Bytes, p: Pe, cells: seq<Cell>, gs: seq<Group>, pl: Payload, l: Layout, out: Bytes, i: nat, k: nat)
    requires Accepted(b, p, cells, gs, pl, l, out) && i < |gs|
    ensures gs[i].values != [] && (k < |gs[i].values| ==> gs[i].values[k] != 0)
  {
    hide PayloadIs, IsPrepared, Parse, LayoutOk, Readable;
    assert GroupOk(gs[i]);
  }

  function DescriptorsFrom(b: Bytes, p: Pe, gs: seq<Group>, i: nat): seq<Descriptor>
    requires i <= |gs|
    decreases |gs| - i
  {
    if i == |gs| then [] else [Descriptor(gs[i].dll, EntriesFrom(b, p, gs[i], 0))] + DescriptorsFrom(b, p, gs, i + 1)
  }

  lemma {:induction false} DescriptorsRead(b: Bytes, p: Pe, cells: seq<Cell>, gs: seq<Group>, pl: Payload, l: Layout, out: Bytes,
                                           i: nat, claimed: set<nat>, left: nat)
    requires Accepted(b, p, cells, gs, pl, l, out) && i <= |gs|
    requires NamesKept(b, p, out, NewPe(p, |pl.bytes|, l), gs) && p.opt + 224 <= |out|
    requires Descriptors(out, NewPe(p, |pl.bytes|, l), l.raw + 20 * i, claimed, left).Some?
    ensures Descriptors(out, NewPe(p, |pl.bytes|, l), l.raw + 20 * i, claimed, left).value == DescriptorsFrom(b, p, gs, i)
    decreases left
  {
    hide Accepted, Entries, StringAt, EntriesFrom, LookupSize, RawAt, NamesKept, DllOk;
    var q := NewPe(p, |pl.bytes|, l);
    DescriptorRead(b, p, cells, gs, pl, l, out, i);
    if i < |gs| {
      DllRead(b, p, cells, gs, pl, l, out, i);
      var r := RawAt(out, l.raw + 20 * i);
      assert r.oft != 0 by { LookupsPositive(b, p, cells, gs, pl, l, out); }
      var parsed := Entries(out, q, r.oft, r.ft, claimed, MAX_IMPORTS);
      assert parsed.Some?;
      assert l.rva + pl.lookups + LookupSize(gs, i) + 4 * 0 == r.oft && gs[i].iat + 4 * 0 == r.ft;
      EntriesRead(b, p, cells, gs, pl, l, out, i, 0, claimed, MAX_IMPORTS);
      assert l.raw + 20 * i + 20 == l.raw + 20 * (i + 1);
      DescriptorsRead(b, p, cells, gs, pl, l, out, i + 1, parsed.value.claimed, left - 1);
    }
  }

  lemma LookupsPositive(b: Bytes, p: Pe, cells: seq<Cell>, gs: seq<Group>, pl: Payload, l: Layout, out: Bytes)
    requires Accepted(b, p, cells, gs, pl, l, out)
    ensures pl.lookups > 0
  {
    hide IsPrepared, Parse, LayoutOk, GroupsOk, Tabled, Words;
  }

  /** Reading the imports of the prepared image gives the groups. */
  lemma ImportsRead(b: Bytes, p: Pe, cells: seq<Cell>, gs: seq<Group>, pl: Payload, l: Layout, out: Bytes)
    requires Accepted(b, p, cells, gs, pl, l, out) && p.opt + 224 <= |out|
    requires NamesKept(b, p, out, NewPe(p, |pl.bytes|, l), gs) && Imports(out, NewPe(p, |pl.bytes|, l)).Some?
    ensures Imports(out, NewPe(p, |pl.bytes|, l)).value == DescriptorsFrom(b, p, gs, 0)
  {
    hide Accepted, Descriptors, NamesKept, DescriptorsFrom;
    var q := NewPe(p, |pl.bytes|, l);
    DirectoryRead(b, p, cells, gs, pl, l, out);
    assert Offset(q, l.rva, HeaderSize(gs)) == Some(l.raw + l.rva - l.rva) by {
      HeaderInSection(b, p, cells, gs, pl, l, out);
    }
    assert l.raw + 20 * 0 == l.raw;
    DescriptorsRead(b, p, cells, gs, pl, l, out, 0, {}, Min(HeaderSize(gs) / 20, 4096));
  }

  lemma DirectoryRead(b: Bytes, p: Pe, cells: seq<Cell>, gs: seq<Group>, pl: Payload, l: Layout, out: Bytes)
    requires Accepted(b, p, cells, gs, pl, l, out) && p.opt + 224 <= |out|
    ensures Directory(out, NewPe(p, |pl.bytes|, l), 1) == (l.rva, HeaderSize(gs))
  {
    hide PayloadIs, Parse, GroupsOk, Words, Rewritten;
    PowValues();
    LayoutBounds(p, |b|, |pl.bytes|, l);
    PayloadParts(gs, l.rva, pl);
    Patched32(out, p.opt + 104, [l.rva, HeaderSize(gs)], 0);
    Patched32(out, p.opt + 104, [l.rva, HeaderSize(gs)], 1);
  }

  lemma HeaderInSection(b: Bytes, p: Pe, cells: seq<Cell>, gs: seq<Group>, pl: Payload, l: Layout, out: Bytes)
    requires Accepted(b, p, cells, gs, pl, l, out)
    ensures Offset(NewPe(p, |pl.bytes|, l), l.rva, HeaderSize(gs)) == Some(l.raw + l.rva - l.rva)
  {
    hide PayloadIs, Parse, GroupsOk, Words, Rewritten, LayoutOk, Offset;
    PayloadParts(gs, l.rva, pl);
    NewOffset(b, p, |pl.bytes|, l, l.rva, HeaderSize(gs));
  }
}
