/**
 The preparation itself, and the theorem that it preserves what the loader binds.
 */
module PeImports {
  import opened Options
  import opened ByteStrings
  import opened PeFormat
  import opened PeRoute
  import opened PePrepare
  import opened PeTheorem

  // ---- What parsing guarantees of the imports ----

  ghost predicate EntryOk(b: Bytes, p: Pe, e: Entry) {
    && SymbolAt(b, p, e.value) == Some(e.symbol) && 0 < e.value <= LIMIT32
    && Backing(p.sections, e.iat, 4).Some? && e.iat % 4 == 0
  }

  ghost function IatsOf(es: seq<Entry>): set<nat> { set i | 0 <= i < |es| :: es[i].iat }

  ghost predicate Fresh(es: seq<Entry>, claimed: set<nat>) {
    && (forall i :: 0 <= i < |es| ==> es[i].iat !in claimed)
    && forall i, j :: 0 <= i < j < |es| ==> es[i].iat != es[j].iat
  }

  lemma {:induction false} EntriesFacts(b: Bytes, p: Pe, lookup: nat, ft: nat, claimed: set<nat>, left: nat)
    requires p.opt + 224 <= |b| && ft % 4 == 0 && Entries(b, p, lookup, ft, claimed, left).Some?
    ensures var r := Entries(b, p, lookup, ft, claimed, left).value;
      && (forall i :: 0 <= i < |r.entries| ==> EntryOk(b, p, r.entries[i]))
      && Fresh(r.entries, claimed) && r.claimed == claimed + IatsOf(r.entries)
    decreases left
  {
    hide SymbolAt, Value32, EntryOk, Fresh, IatsOf, IatOk;
    var value := Value32(b, p, lookup).value;
    assert IatsOf([]) == {} && Fresh([], claimed) by { NoEntries(claimed); }
    if value != 0 {
      EntriesFacts(b, p, lookup + 4, ft + 4, claimed + {ft}, left - 1);
      var rest := Entries(b, p, lookup + 4, ft + 4, claimed + {ft}, left - 1).value;
      var e := Entry(value, SymbolAt(b, p, value).value, ft);
      assert Entries(b, p, lookup, ft, claimed, left).value.entries == [e] + rest.entries;
      ConsFresh(e, rest.entries, claimed);
      HeadOk(b, p, lookup, e);
    }
  }

  lemma NoEntries(claimed: set<nat>)
    ensures IatsOf([]) == {} && Fresh([], claimed)
  {
  }

  lemma HeadOk(b: Bytes, p: Pe, lookup: nat, e: Entry)
    requires p.opt + 224 <= |b| && Value32(b, p, lookup) == Some(e.value) && e.value != 0 && IatOk(b, p, e.iat) && e.iat % 4 == 0
    requires SymbolAt(b, p, e.value) == Some(e.symbol)
    ensures EntryOk(b, p, e)
  {
    hide SymbolAt;
    ValueSmall(b, p, lookup);
  }

  lemma ConsFresh(e: Entry, es: seq<Entry>, claimed: set<nat>)
    requires Fresh(es, claimed + {e.iat}) && e.iat !in claimed
    ensures Fresh([e] + es, claimed) && IatsOf([e] + es) == {e.iat} + IatsOf(es)
  {
    var r := [e] + es;
    forall x ensures x in IatsOf(r) <==> x == e.iat || x in IatsOf(es) {
      if x in IatsOf(es) {
        var i :| 0 <= i < |es| && es[i].iat == x;
        assert r[i + 1].iat == x;
      }
      assert r[0].iat == e.iat;
    }
  }

  lemma ValueSmall(b: Bytes, p: Pe, rva: nat)
    requires Value32(b, p, rva).Some?
    ensures Value32(b, p, rva).value <= LIMIT32
  {
    PowValues();
  }

  ghost predicate BindingOk(b: Bytes, p: Pe, x: Binding) {
    && SymbolAt(b, p, x.value) == Some(x.symbol) && 0 < x.value <= LIMIT32
    && Backing(p.sections, x.iat, 4).Some? && x.iat % 4 == 0 && Readable(x.dll)
  }

  ghost predicate DistinctCells(xs: seq<Binding>) { forall i, j :: 0 <= i < j < |xs| ==> xs[i].iat != xs[j].iat }

  ghost predicate BindingsOk(b: Bytes, p: Pe, xs: seq<Binding>, claimed: set<nat>) {
    && (forall i :: 0 <= i < |xs| ==> BindingOk(b, p, xs[i]) && xs[i].iat !in claimed)
    && DistinctCells(xs)
  }

  lemma {:induction false} StringReadable(b: Bytes, p: Pe, rva: nat, left: nat)
    requires StringFrom(b, p, rva, left).Some?
    ensures var s := StringFrom(b, p, rva, left).value; |s| < left && forall i :: 0 <= i < |s| ==> 0 < s[i] < 128
    decreases left
  {
    hide Offset;
    var o := Offset(p, rva, 1).value;
    if b[o] != 0 {
      StringReadable(b, p, rva + 1, left - 1);
    }
  }

  lemma {:induction false} BindAllIs(dll: Bytes, es: seq<Entry>, i: nat)
    requires i < |es|
    ensures BindAll(dll, es)[i] == Binding(dll, es[i].value, es[i].symbol, es[i].iat)
  {
    if i > 0 {
      BindAllIs(dll, es[1..], i - 1);
    }
  }

  lemma JoinBindings(b: Bytes, p: Pe, dll: Bytes, es: seq<Entry>, claimed: set<nat>, rest: seq<Binding>)
    requires Readable(dll) && (forall i :: 0 <= i < |es| ==> EntryOk(b, p, es[i])) && Fresh(es, claimed)
    requires BindingsOk(b, p, rest, claimed + IatsOf(es))
    ensures BindingsOk(b, p, BindAll(dll, es) + rest, claimed)
  {
    hide SymbolAt, Readable, Backing;
    var head := BindAll(dll, es);
    var all := head + rest;
    forall i | 0 <= i < |all| ensures BindingOk(b, p, all[i]) && all[i].iat !in claimed {
      if i < |head| {
        BindAllIs(dll, es, i);
        assert EntryOk(b, p, es[i]);
      } else {
        assert BindingOk(b, p, rest[i - |head|]);
      }
    }
    forall i, j | 0 <= i < j < |all| ensures all[i].iat != all[j].iat {
      if i < |head| {
        BindAllIs(dll, es, i);
        if j < |head| {
          BindAllIs(dll, es, j);
        } else {
          assert es[i].iat in IatsOf(es);
          assert rest[j - |head|].iat !in claimed + IatsOf(es);
        }
      }
    }
  }

  lemma {:induction false} DescriptorsFacts(b: Bytes, p: Pe, at: nat, claimed: set<nat>, left: nat)
    requires p.opt + 224 <= |b| && Descriptors(b, p, at, claimed, left).Some?
    ensures BindingsOk(b, p, Flatten(Descriptors(b, p, at, claimed, left).value), claimed)
    decreases left
  {
    hide Entries, StringFrom, DllOk, BindingOk, EntryOk, RawAt, BindAll;
    var r := RawAt(b, at);
    if r != EMPTY {
      var dll := StringAt(b, p, r.name).value;
      StringReadable(b, p, r.name, STRING_LIMIT);
      var lookup := if r.oft != 0 then r.oft else r.ft;
      EntriesFacts(b, p, lookup, r.ft, claimed, MAX_IMPORTS);
      var parsed := Entries(b, p, lookup, r.ft, claimed, MAX_IMPORTS).value;
      DescriptorsFacts(b, p, at + 20, parsed.claimed, left - 1);
      var rest := Descriptors(b, p, at + 20, parsed.claimed, left - 1).value;
      var ds := Descriptors(b, p, at, claimed, left).value;
      assert ds[0] == Descriptor(dll, parsed.entries) && ds[1..] == rest;
      JoinBindings(b, p, dll, parsed.entries, claimed, Flatten(rest));
    }
  }

  lemma ImportsFacts(b: Bytes, p: Pe)
    requires p.opt + 224 <= |b| && Imports(b, p).Some?
    ensures BindingsOk(b, p, Flatten(Imports(b, p).value), {})
  {
    hide Descriptors, BindingOk;
    var (rva, size) := Directory(b, p, 1);
    DescriptorsFacts(b, p, Offset(p, rva, size).value, {}, Min(size / 20, 4096));
  }

  // ---- The reading loops ----

  function PrependEntries(es: seq<Entry>, rest: Option<Parsed>): Option<Parsed> {
    match rest case None => None case Some(r) => Some(Parsed(es + r.entries, r.claimed))
  }

  lemma EntriesStep(b: Bytes, p: Pe, lookup: nat, ft: nat, claimed: set<nat>, left: nat, es: seq<Entry>)
    requires p.opt + 224 <= |b| && left > 0
    ensures var value := Value32(b, p, lookup);
      var all := PrependEntries(es, Entries(b, p, lookup, ft, claimed, left));
      && (value.None? || !IatOk(b, p, ft) ==> all.None?)
      && (value == Some(0) && IatOk(b, p, ft) ==> all == Some(Parsed(es, claimed)))
      && (value.Some? && value.value != 0 && IatOk(b, p, ft) ==>
            if ft in claimed || |claimed| >= MAX_IMPORTS || SymbolAt(b, p, value.value).None? then all.None?
            else all == PrependEntries(es + [Entry(value.value, SymbolAt(b, p, value.value).value, ft)],
                                       Entries(b, p, lookup + 4, ft + 4, claimed + {ft}, left - 1)))
  {
    hide SymbolAt, IatOk, Value32;
    var value := Value32(b, p, lookup);
    if value.Some? && value.value != 0 && SymbolAt(b, p, value.value).Some? {
      var e := Entry(value.value, SymbolAt(b, p, value.value).value, ft);
      match Entries(b, p, lookup + 4, ft + 4, claimed + {ft}, left - 1)
      case None =>
      case Some(rest) => assert es + ([e] + rest.entries) == es + [e] + rest.entries;
    }
    assert es + [] == es;
  }

  /** The loop over one lookup table. */
  method ReadEntries(b: Bytes, p: Pe, lookup: nat, ft: nat, claimed: set<nat>) returns (r: Option<Parsed>)
    requires p.opt + 224 <= |b|
    ensures r == Entries(b, p, lookup, ft, claimed, MAX_IMPORTS)
  {
    hide Entries, SymbolAt, IatOk, Value32;
    var es: seq<Entry>, taken: set<nat> := [], claimed;
    NoPrefix(Entries(b, p, lookup, ft, claimed, MAX_IMPORTS));
    for k: nat := 0 to MAX_IMPORTS
      invariant Entries(b, p, lookup, ft, claimed, MAX_IMPORTS)
                == PrependEntries(es, Entries(b, p, lookup + 4 * k, ft + 4 * k, taken, MAX_IMPORTS - k))
    {
      EntriesStep(b, p, lookup + 4 * k, ft + 4 * k, taken, MAX_IMPORTS - k, es);
      var value := Value32(b, p, lookup + 4 * k);
      if value.None? || !IatOk(b, p, ft + 4 * k) {
        return None;
      }
      if value.value == 0 {
        return Some(Parsed(es, taken));
      }
      if ft + 4 * k in taken || |taken| >= MAX_IMPORTS {
        return None;
      }
      var symbol := SymbolAt(b, p, value.value);
      if symbol.None? {
        return None;
      }
      es := es + [Entry(value.value, symbol.value, ft + 4 * k)];
      taken := taken + {ft + 4 * k};
      assert lookup + 4 * k + 4 == lookup + 4 * (k + 1) && ft + 4 * k + 4 == ft + 4 * (k + 1);
    }
    EntriesOut(b, p, lookup + 4 * MAX_IMPORTS, ft + 4 * MAX_IMPORTS, taken);
    return None;
  }

  lemma NoPrefix(rest: Option<Parsed>)
    ensures PrependEntries([], rest) == rest
  {
    match rest
    case None =>
    case Some(r) => assert [] + r.entries == r.entries;
  }

  lemma EntriesOut(b: Bytes, p: Pe, lookup: nat, ft: nat, claimed: set<nat>)
    requires p.opt + 224 <= |b|
    ensures Entries(b, p, lookup, ft, claimed, 0).None?
  {
  }

  function PrependDescriptors(ds: seq<Descriptor>, rest: Option<seq<Descriptor>>): Option<seq<Descriptor>> {
    match rest case None => None case Some(r) => Some(ds + r)
  }

  /** The loop over the descriptors of the import directory. */
  method ReadImports(b: Bytes, p: Pe) returns (r: Option<seq<Descriptor>>)
    requires p.opt + 224 <= |b|
    ensures r == Imports(b, p)
  {
    hide Descriptors, Entries, StringFrom, DllOk, RawAt, Directory, Offset;
    var (rva, size) := Directory(b, p, 1);
    if rva == 0 || size < 20 {
      return None;
    }
    var at := Offset(p, rva, size);
    if at.None? {
      return None;
    }
    var ds: seq<Descriptor>, claimed: set<nat> := [], {};
    var limit := Min(size / 20, 4096);
    NoDescriptors(Descriptors(b, p, at.value, {}, limit));
    for i: nat := 0 to limit
      invariant Descriptors(b, p, at.value, {}, limit)
                == PrependDescriptors(ds, Descriptors(b, p, at.value + 20 * i, claimed, limit - i))
    {
      DescriptorsStep(b, p, at.value + 20 * i, claimed, limit - i, ds);
      if at.value + 20 * i + 20 > |b| {
        return None;
      }
      var raw := RawAt(b, at.value + 20 * i);
      if raw == EMPTY {
        return Some(ds);
      }
      if !RawOk(raw) {
        return None;
      }
      var dll := StringAt(b, p, raw.name);
      if dll.None? || !DllOk(dll.value) {
        return None;
      }
      var parsed := ReadEntries(b, p, if raw.oft != 0 then raw.oft else raw.ft, raw.ft, claimed);
      if parsed.None? || parsed.value.entries == [] {
        return None;
      }
      ds := ds + [Descriptor(dll.value, parsed.value.entries)];
      claimed := parsed.value.claimed;
      assert at.value + 20 * i + 20 == at.value + 20 * (i + 1);
    }
    DescriptorsOut(b, p, at.value + 20 * limit, claimed);
    return None;
  }

  lemma NoDescriptors(rest: Option<seq<Descriptor>>)
    ensures PrependDescriptors([], rest) == rest
  {
    match rest
    case None =>
    case Some(r) => assert [] + r == r;
  }

  lemma DescriptorsOut(b: Bytes, p: Pe, at: nat, claimed: set<nat>)
    requires p.opt + 224 <= |b|
    ensures Descriptors(b, p, at, claimed, 0).None?
  {
  }

  lemma DescriptorsStep(b: Bytes, p: Pe, at: nat, claimed: set<nat>, left: nat, ds: seq<Descriptor>)
    requires p.opt + 224 <= |b| && left > 0
    ensures var all := PrependDescriptors(ds, Descriptors(b, p, at, claimed, left));
      if at + 20 > |b| then all.None?
      else
        var raw := RawAt(b, at);
        if raw == EMPTY then all == Some(ds)
        else if !RawOk(raw) || StringAt(b, p, raw.name).None? || !DllOk(StringAt(b, p, raw.name).value) then all.None?
        else
          var parsed := Entries(b, p, if raw.oft != 0 then raw.oft else raw.ft, raw.ft, claimed, MAX_IMPORTS);
          if parsed.None? || parsed.value.entries == [] then all.None?
          else all == PrependDescriptors(ds + [Descriptor(StringAt(b, p, raw.name).value, parsed.value.entries)],
                                         Descriptors(b, p, at + 20, parsed.value.claimed, left - 1))
  {
    hide Entries, StringFrom, DllOk, RawAt;
    assert ds + [] == ds;
    if at + 20 <= |b| {
      var raw := RawAt(b, at);
      var dll := StringAt(b, p, raw.name);
      var parsed := Entries(b, p, if raw.oft != 0 then raw.oft else raw.ft, raw.ft, claimed, MAX_IMPORTS);
      if dll.Some? && parsed.Some? {
        match Descriptors(b, p, at + 20, parsed.value.claimed, left - 1)
        case None =>
        case Some(rest) =>
          var d := Descriptor(dll.value, parsed.value.entries);
          assert ds + ([d] + rest) == ds + [d] + rest;
      }
    }
  }

  // ---- Groups and bindings ----

  function CellsFrom(gs: seq<Group>, i: nat): seq<Cell>
    requires i <= |gs|
    decreases |gs| - i
  {
    if i == |gs| then [] else GroupCells(gs[i]) + CellsFrom(gs, i + 1)
  }

  lemma {:induction false} CellsSplit(gs: seq<Group>, i: nat)
    requires i <= |gs|
    ensures AllCells(gs) == AllCells(gs[..i]) + CellsFrom(gs, i)
    decreases |gs| - i
  {
    hide GroupCells;
    if i == |gs| {
      assert gs[..i] == gs;
    } else {
      CellsSplit(gs, i + 1);
      assert gs[..i + 1][..i] == gs[..i] && gs[..i + 1][i] == gs[i];
    }
  }

  ghost predicate Matches(b: Bytes, p: Pe, xs: seq<Binding>, cs: seq<Cell>) {
    && |xs| == |cs|
    && forall j :: 0 <= j < |xs| ==> CellOf(xs[j]) == cs[j] && xs[j].symbol == SymbolOf(b, p, cs[j].value)
  }

  function SymbolOf(b: Bytes, p: Pe, value: nat): Option<Bytes> {
    var s := SymbolAt(b, p, value);
    if s.Some? then s.value else None
  }

  lemma {:induction false} EntriesMatch(b: Bytes, p: Pe, g: Group, k: nat)
    requires k <= |g.values|
    ensures Matches(b, p, BindAll(g.dll, EntriesFrom(b, p, g, k)), GroupCells(g)[k..])
    decreases |g.values| - k
  {
    hide SymbolAt;
    if k < |g.values| {
      EntriesMatch(b, p, g, k + 1);
      assert EntriesFrom(b, p, g, k)[1..] == EntriesFrom(b, p, g, k + 1);
      assert GroupCells(g)[k..] == [GroupCells(g)[k]] + GroupCells(g)[k + 1..];
    }
  }

  lemma MatchesConcat(b: Bytes, p: Pe, xs: seq<Binding>, cs: seq<Cell>, ys: seq<Binding>, ds: seq<Cell>)
    requires Matches(b, p, xs, cs) && Matches(b, p, ys, ds)
    ensures Matches(b, p, xs + ys, cs + ds)
  {
    hide SymbolOf;
  }

  lemma {:induction false} DescriptorsMatch(b: Bytes, p: Pe, gs: seq<Group>, i: nat)
    requires i <= |gs|
    ensures Matches(b, p, Flatten(DescriptorsFrom(b, p, gs, i)), CellsFrom(gs, i))
    decreases |gs| - i
  {
    hide Matches, EntriesFrom, BindAll, GroupCells;
    if i == |gs| {
      assert Matches(b, p, [], []) by { NothingMatches(b, p); }
    } else {
      DescriptorsMatch(b, p, gs, i + 1);
      EntriesMatch(b, p, gs[i], 0);
      assert GroupCells(gs[i])[0..] == GroupCells(gs[i]);
      var ds := DescriptorsFrom(b, p, gs, i);
      assert ds[1..] == DescriptorsFrom(b, p, gs, i + 1);
      MatchesConcat(b, p, BindAll(gs[i].dll, EntriesFrom(b, p, gs[i], 0)), GroupCells(gs[i]),
                    Flatten(ds[1..]), CellsFrom(gs, i + 1));
    }
  }

  lemma NothingMatches(b: Bytes, p: Pe)
    ensures Matches(b, p, [], [])
  {
  }

  /** Bindings are determined by their cells, since the name follows from the lookup value. */
  lemma SameBindings(b: Bytes, p: Pe, plan: Plan, xs: seq<Binding>, gs: seq<Group>)
    requires BindingsOk(b, p, xs, {}) && AllCells(gs) == CellsOf(RerouteAll(plan, xs))
    ensures Flatten(DescriptorsFrom(b, p, gs, 0)) == RerouteAll(plan, xs)
  {
    hide SymbolAt, DescriptorsFrom, CellsFrom, Readable, Backing, AllCells, Migrates, Flatten;
    DescriptorsMatch(b, p, gs, 0);
    CellsSplit(gs, 0);
    assert AllCells(gs[..0]) == [] by {
      assert gs[..0] == [];
      NoCells();
    }
    var ys, zs := Flatten(DescriptorsFrom(b, p, gs, 0)), RerouteAll(plan, xs);
    assert AllCells(gs) == CellsFrom(gs, 0);
    forall j | 0 <= j < |ys| ensures ys[j] == zs[j] {
      assert BindingOk(b, p, xs[j]);
      assert CellOf(ys[j]) == CellOf(zs[j]);
    }
  }

  // ---- Names ----

  /** No byte of an import name is among the rewritten ones. */
  ghost predicate NamesUntouched(p: Pe, xs: seq<Binding>, cells: seq<Cell>) {
    forall j :: 0 <= j < |xs| && xs[j].symbol.Some? ==> NameUntouched(p, cells, xs[j].value + 2, |xs[j].symbol.value|)
  }

  ghost predicate NameUntouched(p: Pe, cells: seq<Cell>, rva: nat, length: nat) {
    forall a: nat :: rva <= a <= rva + length ==> Offset(p, a, 1).Some? ==> !Rewritten(p, cells, Offset(p, a, 1).value)
  }

  lemma BindingName(b: Bytes, p: Pe, cells: seq<Cell>, gs: seq<Group>, pl: Payload, l: Layout, out: Bytes, x: Binding)
    requires Accepted(b, p, cells, gs, pl, l, out) && BindingOk(b, p, x)
    requires x.symbol.Some? ==> NameUntouched(p, cells, x.value + 2, |x.symbol.value|)
    ensures NameKept(b, p, out, NewPe(p, |pl.bytes|, l), x.value)
  {
    hide PayloadIs, Parse, GroupsOk, LayoutOk, Rewritten, StringFrom, Offset, Readable, Backing;
    var q := NewPe(p, |pl.bytes|, l);
    if x.value < BY_ORDINAL {
      OldOffset(p, |pl.bytes|, l, x.value, 2);
      var name := StringAt(b, p, x.value + 2).value;
      forall a: nat | x.value + 2 <= a <= x.value + 2 + |name| ensures StringByteKept(b, out, p, a) {
      }
      OldString(b, out, p, |pl.bytes|, l, x.value + 2, STRING_LIMIT, name);
    }
  }

  lemma AllNamesKept(b: Bytes, p: Pe, plan: Plan, xs: seq<Binding>, cells: seq<Cell>, gs: seq<Group>, pl: Payload, l: Layout, out: Bytes)
    requires Accepted(b, p, cells, gs, pl, l, out) && BindingsOk(b, p, xs, {}) && NamesUntouched(p, xs, cells)
    requires AllCells(gs) == cells == CellsOf(RerouteAll(plan, xs))
    ensures NamesKept(b, p, out, NewPe(p, |pl.bytes|, l), gs)
  {
    hide Accepted, NameKept, NameUntouched, BindingOk, AllCells, Migrates;
    forall i, k | 0 <= i < |gs| && 0 <= k < |gs[i].values| ensures NameKept(b, p, out, NewPe(p, |pl.bytes|, l), gs[i].values[k]) {
      var j := ValueInCells(gs, i, k);
      BindingName(b, p, cells, gs, pl, l, out, xs[j]);
    }
  }

  lemma ValueInCells(gs: seq<Group>, i: nat, k: nat) returns (j: nat)
    requires i < |gs| && k < |gs[i].values|
    ensures j < |AllCells(gs)| && AllCells(gs)[j].value == gs[i].values[k]
  {
    hide GroupCells;
    CellsSplit(gs, i);
    j := |AllCells(gs[..i])| + k;
    assert CellsFrom(gs, i)[k] == GroupCells(gs[i])[k];
    assert AllCells(gs)[j] == CellsFrom(gs, i)[k];
  }

  // ---- Writing the image ----

  /** The section that backs a cell, and where the cell is in the file. */
  lemma CellSection(b: Bytes, p: Pe, iat: nat) returns (i: nat)
    requires Parse(b) == Some(p) && Backing(p.sections, iat, 4).Some?
    ensures i < |p.sections|
    ensures var s := p.sections[i];
      && s.va <= iat && iat + 4 <= s.va + s.rs && s.va + s.rs <= LIMIT32 && p.headers <= s.rp && s.rp + s.rs <= |b|
      && Offset(p, iat, 4) == Some(s.rp + iat - s.va)
  {
    hide Parse;
    BackingIs(p.sections, iat, 4);
    var s := Backing(p.sections, iat, 4).value;
    i :| 0 <= i < |p.sections| && p.sections[i] == s;
    SectionFacts(b, p, i);
  }

  lemma SectionFacts(b: Bytes, p: Pe, i: nat)
    requires Parse(b) == Some(p) && i < |p.sections|
    ensures SectionOk(p, p.sections[i], |b|) && p.sections[i].rs <= p.sections[i].span
  {
    hide HeaderOk, HeaderOf;
    assert SectionsOk(b, p);
    SpanCovers(b, i);
  }

  lemma CellOffset(b: Bytes, p: Pe, iat: nat)
    requires Parse(b) == Some(p) && Backing(p.sections, iat, 4).Some?
    ensures Offset(p, iat, 4).Some? && p.headers <= Offset(p, iat, 4).value && Offset(p, iat, 4).value + 4 <= |b| && iat + 4 <= LIMIT32
  {
    hide Parse, Offset, Backing;
    var i := CellSection(b, p, iat);
  }

  lemma RawApart(b: Bytes, p: Pe, i: nat, j: nat)
    requires Parse(b) == Some(p) && i < |p.sections| && j < |p.sections| && i != j
    requires p.sections[i].rs != 0 && p.sections[j].rs != 0
    ensures var s, t := p.sections[i], p.sections[j]; s.rp + s.rs <= t.rp || t.rp + t.rs <= s.rp
  {
    hide HeaderOk, HeaderOf;
    assert SectionsOk(b, p);
    var lo, hi := if i < j then i else j, if i < j then j else i;
    assert !Overlap(p.sections[lo].rp, p.sections[lo].rs, p.sections[hi].rp, p.sections[hi].rs);
  }

  /** Distinct aligned cells occupy disjoint bytes of the file. */
  lemma CellsApart(b: Bytes, p: Pe, x: nat, y: nat)
    requires Parse(b) == Some(p) && x != y && x % 4 == 0 && y % 4 == 0
    requires Backing(p.sections, x, 4).Some? && Backing(p.sections, y, 4).Some?
    ensures Offset(p, x, 4).Some? && Offset(p, y, 4).Some?
    ensures var o, u := Offset(p, x, 4).value, Offset(p, y, 4).value; o + 4 <= u || u + 4 <= o
  {
    hide Parse, Offset, Backing;
    var i := CellSection(b, p, x);
    var j := CellSection(b, p, y);
    if i != j {
      RawApart(b, p, i, j);
    }
  }

  ghost predicate CellsReady(b: Bytes, p: Pe, cells: seq<Cell>) {
    && Parse(b) == Some(p)
    && (forall j :: 0 <= j < |cells| ==> Backing(p.sections, cells[j].iat, 4).Some? && cells[j].iat % 4 == 0 && cells[j].value <= LIMIT32)
    && forall i, j :: 0 <= i < j < |cells| ==> cells[i].iat != cells[j].iat
  }

  ghost predicate CellHolds(p: Pe, c: Cell, out: Bytes) {
    var o := Offset(p, c.iat, 4);
    o.Some? && o.value + 4 <= |out| && U32(out, o.value) == c.value
  }

  function PutCell(p: Pe, c: Cell, image: Bytes): (r: Bytes)
    ensures |r| == |image|
  {
    var o := Offset(p, c.iat, 4);
    if o.Some? && o.value + 4 <= |image| then Overlay(image, o.value, LE(c.value, 4)) else image
  }

  function PutCells(p: Pe, cells: seq<Cell>, image: Bytes): (r: Bytes)
    ensures |r| == |image|
  {
    if cells == [] then image else PutCell(p, cells[|cells| - 1], PutCells(p, cells[..|cells| - 1], image))
  }

  lemma FewerReady(b: Bytes, p: Pe, cells: seq<Cell>)
    requires CellsReady(b, p, cells) && cells != []
    ensures CellsReady(b, p, cells[..|cells| - 1])
  {
    hide Parse, Backing;
  }

  /** All cells hold their lookup values, and no other byte changes. */
  lemma {:induction false} PutCellsIs(b: Bytes, p: Pe, cells: seq<Cell>, image: Bytes)
    requires CellsReady(b, p, cells) && |b| <= |image|
    ensures var out := PutCells(p, cells, image);
      && (forall k :: 0 <= k < |image| && !InCells(p, cells, k) ==> out[k] == image[k])
      && (forall j :: 0 <= j < |cells| ==> CellHolds(p, cells[j], out))
  {
    hide Parse, Backing, Offset, U32;
    if cells != [] {
      var n := |cells| - 1;
      var init, c := cells[..n], cells[n];
      FewerReady(b, p, cells);
      PutCellsIs(b, p, init, image);
      CellOffset(b, p, c.iat);
      var o := Offset(p, c.iat, 4).value;
      var before, out := PutCells(p, init, image), PutCells(p, cells, image);
      assert out == Overlay(before, o, LE(c.value, 4));
      forall k | 0 <= k < |image| && !InCells(p, cells, k) ensures out[k] == image[k] {
        assert !InCell(p, cells[n], k);
        assert forall j :: 0 <= j < n ==> init[j] == cells[j];
        OverlayByte(before, o, LE(c.value, 4), k);
      }
      forall i | 0 <= i < |cells| ensures CellHolds(p, cells[i], out) {
        if i < n {
          assert CellHolds(p, init[i], before);
          CellsApart(b, p, cells[i].iat, c.iat);
          StillHolds(p, cells[i], before, o, LE(c.value, 4));
        } else {
          JustWritten(before, o, c.value);
        }
      }
    }
  }

  /** Puts every lookup value back into its address-table cell. */
  method RestoreCells(b: Bytes, p: Pe, cells: seq<Cell>, image: Bytes) returns (out: Bytes)
    requires CellsReady(b, p, cells) && |b| <= |image|
    ensures out == PutCells(p, cells, image)
  {
    hide Parse, Backing, Offset;
    out := image;
    for j := 0 to |cells|
      invariant out == PutCells(p, cells[..j], image)
    {
      CellOffset(b, p, cells[j].iat);
      assert cells[..j + 1][..j] == cells[..j] && cells[..j + 1][j] == cells[j];
      out := Overlay(out, Offset(p, cells[j].iat, 4).value, LE(cells[j].value, 4));
    }
    assert cells[..|cells|] == cells;
  }

  lemma StillHolds(p: Pe, c: Cell, b: Bytes, at: nat, x: Bytes)
    requires CellHolds(p, c, b) && at + |x| <= |b|
    requires var o := Offset(p, c.iat, 4).value; o + 4 <= at || at + |x| <= o
    ensures CellHolds(p, c, Overlay(b, at, x))
  {
    hide Offset;
    var o := Offset(p, c.iat, 4).value;
    assert Overlay(b, at, x)[o..o + 4] == b[o..o + 4];
  }

  lemma JustWritten(b: Bytes, at: nat, value: nat)
    requires at + 4 <= |b| && value <= LIMIT32
    ensures U32(Overlay(b, at, LE(value, 4)), at) == value
  {
    PowValues();
    assert Overlay(b, at, LE(value, 4))[at..at + 4] == LE(value, 4);
    UnLEOfLE(value, 4);
  }

  const SECTION_NAME: Bytes := [46, 110, 116, 119, 105, 109, 112, 0]

  /** The forty bytes of the new section header. */
  function SectionHeader(payload: nat, l: Layout): (r: Bytes)
    ensures |r| == 40
  {
    SECTION_NAME + Words([payload, l.rva, l.rawSize, l.raw]) + Words([0, 0]) + [0, 0, 0, 0] + Words([0x4000_0040])
  }

  lemma SectionHeaderParts(payload: nat, l: Layout)
    ensures var h := SectionHeader(payload, l);
      h[8..24] == Words([payload, l.rva, l.rawSize, l.raw]) && h[36..40] == Words([0x4000_0040])
  {
    hide Words;
  }

  lemma OverlayField(b: Bytes, at: nat, x: Bytes, i: nat, j: nat)
    requires at + |x| <= |b| && i <= j <= |x|
    ensures Overlay(b, at, x)[at + i..at + j] == x[i..j]
  {
    var r := Overlay(b, at, x);
    forall k | 0 <= k < j - i ensures r[at + i..at + j][k] == x[i..j][k] {
      OverlayByte(b, at, x, at + i + k);
    }
  }

  lemma OverlayKeepsField(b: Bytes, at: nat, x: Bytes, i: nat, j: nat)
    requires at + |x| <= |b| && i <= j <= |b| && (j <= at || at + |x| <= i)
    ensures Overlay(b, at, x)[i..j] == b[i..j]
  {
    var r := Overlay(b, at, x);
    forall k | 0 <= k < j - i ensures r[i..j][k] == b[i..j][k] {
      OverlayByte(b, at, x, i + k);
    }
  }

  ghost predicate HeaderFits(p: Pe, image: Bytes) {
    p.opt == p.pe + 24 && p.opt + 224 <= p.table && NewHeader(p) + 40 <= |image|
  }

  /** The header fields written one over the other. */
  function Patched(p: Pe, image: Bytes, dir: Bytes, header: Bytes, initialized: nat, imageSize: nat): (r: Bytes)
    requires HeaderFits(p, image) && |dir| == 8 && |header| == 40
    ensures |r| == |image|
  {
    var b1 := Overlay(image, NewHeader(p), header);
    var b2 := Overlay(b1, p.pe + 6, LE(p.count + 1, 2));
    var b3 := Overlay(b2, p.opt + 8, LE(initialized, 4));
    var b4 := Overlay(b3, p.opt + 56, LE(imageSize, 4));
    var b5 := Overlay(b4, p.opt + 64, LE(0, 4));
    Overlay(Overlay(b5, p.opt + 104, dir), p.opt + 184, Words([0, 0]))
  }

  /** Writes the patched header fields, in the program's order. */
  method PatchHeader(p: Pe, image: Bytes, gs: seq<Group>, payload: nat, initialized: nat, l: Layout) returns (out: Bytes)
    requires HeaderFits(p, image)
    ensures out == Patched(p, image, Words([l.rva, HeaderSize(gs)]), SectionHeader(payload, l), initialized, l.imageSize)
  {
    hide Words, SectionHeader, HeaderSize, Overlay;
    out := Overlay(image, NewHeader(p), SectionHeader(payload, l));
    out := Overlay(out, p.pe + 6, LE(p.count + 1, 2));
    out := Overlay(out, p.opt + 8, LE(initialized, 4));
    out := Overlay(out, p.opt + 56, LE(l.imageSize, 4));
    out := Overlay(out, p.opt + 64, LE(0, 4));
    out := Overlay(out, p.opt + 104, Words([l.rva, HeaderSize(gs)]));
    out := Overlay(out, p.opt + 184, Words([0, 0]));
  }

  lemma PatchedByte(p: Pe, image: Bytes, dir: Bytes, h: Bytes, initialized: nat, imageSize: nat, k: nat)
    requires HeaderFits(p, image) && |dir| == 8 && |h| == 40 && k < |image| && !InHeaderFields(p, k)
    ensures Patched(p, image, dir, h, initialized, imageSize)[k] == image[k]
  {
    hide Words, Overlay, LE;
    var b1 := Overlay(image, NewHeader(p), h);
    var b2 := Overlay(b1, p.pe + 6, LE(p.count + 1, 2));
    var b3 := Overlay(b2, p.opt + 8, LE(initialized, 4));
    var b4 := Overlay(b3, p.opt + 56, LE(imageSize, 4));
    var b5 := Overlay(b4, p.opt + 64, LE(0, 4));
    OverlayByte(image, NewHeader(p), h, k);
    OverlayByte(b1, p.pe + 6, LE(p.count + 1, 2), k);
    OverlayByte(b2, p.opt + 8, LE(initialized, 4), k);
    OverlayByte(b3, p.opt + 56, LE(imageSize, 4), k);
    OverlayByte(b4, p.opt + 64, LE(0, 4), k);
    OverlayByte(b5, p.opt + 104, dir, k);
    OverlayByte(Overlay(b5, p.opt + 104, dir), p.opt + 184, Words([0, 0]), k);
  }

  lemma WholeField(x: Bytes, n: nat)
    requires |x| == n
    ensures x[0..n] == x
  {
  }

  /** Each patched field holds what was written into it, and no other byte changes. */
  lemma PatchedIs(p: Pe, image: Bytes, dir: Bytes, h: Bytes, initialized: nat, imageSize: nat)
    requires HeaderFits(p, image) && |dir| == 8 && |h| == 40
    ensures var out := Patched(p, image, dir, h, initialized, imageSize);
      && (forall k :: 0 <= k < |image| && !InHeaderFields(p, k) ==> out[k] == image[k])
      && out[p.pe + 6..p.pe + 8] == LE(p.count + 1, 2) && out[p.opt + 8..p.opt + 12] == LE(initialized, 4)
      && out[p.opt + 104..p.opt + 112] == dir
      && out[NewHeader(p) + 8..NewHeader(p) + 24] == h[8..24] && out[NewHeader(p) + 36..NewHeader(p) + 40] == h[36..40]
  {
    hide Words, Overlay, InHeaderFields, LE;
    forall k | 0 <= k < |image| && !InHeaderFields(p, k) ensures Patched(p, image, dir, h, initialized, imageSize)[k] == image[k] {
      PatchedByte(p, image, dir, h, initialized, imageSize, k);
    }
    var at, count, size, total, sum, unbound := NewHeader(p), LE(p.count + 1, 2), LE(initialized, 4), LE(imageSize, 4), LE(0, 4), Words([0, 0]);
    var b1 := Overlay(image, at, h);
    var b2 := Overlay(b1, p.pe + 6, count);
    var b3 := Overlay(b2, p.opt + 8, size);
    var b5 := Overlay(Overlay(b3, p.opt + 56, total), p.opt + 64, sum);
    SurvivesLater(b1, p, count, size, total, sum, dir, unbound, at + 8, at + 24);
    SurvivesLater(b1, p, count, size, total, sum, dir, unbound, at + 36, at + 40);
    OverlayField(image, at, h, 8, 24);
    OverlayField(image, at, h, 36, 40);
    OverlayField(b1, p.pe + 6, count, 0, 2);
    WholeField(count, 2);
    WholeField(size, 4);
    WholeField(dir, 8);
    OverlayKeepsField(b2, p.opt + 8, size, p.pe + 6, p.pe + 8);
    AfterSize(b3, p, total, sum, dir, unbound, p.pe + 6, p.pe + 8);
    OverlayField(b2, p.opt + 8, size, 0, 4);
    AfterSize(b3, p, total, sum, dir, unbound, p.opt + 8, p.opt + 12);
    OverlayField(b5, p.opt + 104, dir, 0, 8);
    OverlayKeepsField(Overlay(b5, p.opt + 104, dir), p.opt + 184, unbound, p.opt + 104, p.opt + 112);
  }

  /** Fields in front of the patched image size survive what is patched after the initialized-data size. */
  lemma AfterSize(b3: Bytes, p: Pe, total: Bytes, sum: Bytes, dir: Bytes, unbound: Bytes, i: nat, j: nat)
    requires p.opt == p.pe + 24 && p.opt + 192 <= |b3| && i <= j <= p.opt + 12
    requires |total| == 4 && |sum| == 4 && |dir| == 8 && |unbound| == 8
    ensures Overlay(Overlay(Overlay(Overlay(b3, p.opt + 56, total), p.opt + 64, sum), p.opt + 104, dir), p.opt + 184, unbound)[i..j]
         == b3[i..j]
  {
    hide Overlay;
    var b4 := Overlay(b3, p.opt + 56, total);
    var b5 := Overlay(b4, p.opt + 64, sum);
    var b6 := Overlay(b5, p.opt + 104, dir);
    OverlayKeepsField(b3, p.opt + 56, total, i, j);
    OverlayKeepsField(b4, p.opt + 64, sum, i, j);
    OverlayKeepsField(b5, p.opt + 104, dir, i, j);
    OverlayKeepsField(b6, p.opt + 184, unbound, i, j);
  }

  /** Fields of the new section header lie behind everything patched later. */
  lemma SurvivesLater(b1: Bytes, p: Pe, count: Bytes, size: Bytes, total: Bytes, sum: Bytes, dir: Bytes, unbound: Bytes, i: nat, j: nat)
    requires p.opt == p.pe + 24 && p.opt + 224 <= p.table && NewHeader(p) <= i <= j <= |b1|
    requires |count| == 2 && |size| == 4 && |total| == 4 && |sum| == 4 && |dir| == 8 && |unbound| == 8
    ensures var b3 := Overlay(Overlay(b1, p.pe + 6, count), p.opt + 8, size);
      Overlay(Overlay(Overlay(Overlay(b3, p.opt + 56, total), p.opt + 64, sum), p.opt + 104, dir), p.opt + 184, unbound)[i..j]
      == b1[i..j]
  {
    hide Overlay;
    var b2 := Overlay(b1, p.pe + 6, count);
    var b3 := Overlay(b2, p.opt + 8, size);
    var b4 := Overlay(b3, p.opt + 56, total);
    var b5 := Overlay(b4, p.opt + 64, sum);
    var b6 := Overlay(b5, p.opt + 104, dir);
    OverlayKeepsField(b1, p.pe + 6, count, i, j);
    OverlayKeepsField(b2, p.opt + 8, size, i, j);
    OverlayKeepsField(b3, p.opt + 56, total, i, j);
    OverlayKeepsField(b4, p.opt + 64, sum, i, j);
    OverlayKeepsField(b5, p.opt + 104, dir, i, j);
    OverlayKeepsField(b6, p.opt + 184, unbound, i, j);
  }

  ghost predicate CanAssemble(b: Bytes, p: Pe, pl: Payload, l: Layout) {
    && |b| <= l.raw && |pl.bytes| <= l.rawSize && HeaderFits(p, b) && p.opt + 12 <= |b|
  }

  /** The image with its new section, restored cells and patched header. */
  function Assembled(b: Bytes, p: Pe, cells: seq<Cell>, gs: seq<Group>, pl: Payload, l: Layout): Bytes
    requires CanAssemble(b, p, pl, l)
  {
    var image := b + Zeros(l.raw + l.rawSize - |b|);
    var restored := PutCells(p, cells, Overlay(image, l.raw, pl.bytes));
    Patched(p, restored, Words([l.rva, HeaderSize(gs)]), SectionHeader(|pl.bytes|, l), U32(b, p.opt + 8) + l.rawSize, l.imageSize)
  }

  lemma Assembles(b: Bytes, p: Pe, pl: Payload, l: Layout)
    requires Parse(b) == Some(p) && HasSlack(b, p) && LayoutOk(p, |b|, |pl.bytes|, l)
    ensures CanAssemble(b, p, pl, l)
  {
    hide Parse, Align;
    LayoutBounds(p, |b|, |pl.bytes|, l);
    ParsedFits(b);
  }

  /** What patching the header finds: the section in place and the cells restored. */
  lemma RestoredIs(b: Bytes, p: Pe, cells: seq<Cell>, pl: Payload, l: Layout)
    requires CellsReady(b, p, cells) && HasSlack(b, p) && |b| <= l.raw && |pl.bytes| <= l.rawSize
    ensures var image := b + Zeros(l.raw + l.rawSize - |b|);
      var restored := PutCells(p, cells, Overlay(image, l.raw, pl.bytes));
      && |restored| == l.raw + l.rawSize
      && (forall k :: 0 <= k < |b| && !InCells(p, cells, k) ==> restored[k] == b[k])
      && (forall k :: l.raw <= k < l.raw + |pl.bytes| ==> restored[k] == pl.bytes[k - l.raw] && !InHeaderFields(p, k))
      && (forall j :: 0 <= j < |cells| ==> CellHolds(p, cells[j], restored))
  {
    hide Parse, CellHolds, InHeaderFields, InCells, Backing, PutCells, CellsReady, HasSlack, Overlay;
    var image := b + Zeros(l.raw + l.rawSize - |b|);
    var filled := Overlay(image, l.raw, pl.bytes);
    PutCellsIs(b, p, cells, filled);
    forall k | 0 <= k < |b| ensures filled[k] == b[k] {
      OverlayByte(image, l.raw, pl.bytes, k);
    }
    forall k | l.raw <= k < l.raw + |pl.bytes| ensures filled[k] == pl.bytes[k - l.raw] && !InHeaderFields(p, k) && !InCells(p, cells, k) {
      OverlayByte(image, l.raw, pl.bytes, k);
      BeyondFile(b, p, cells, k);
    }
  }

  lemma SliceIs(b: Bytes, at: nat, x: Bytes)
    requires at + |x| <= |b| && forall k :: at <= k < at + |x| ==> b[k] == x[k - at]
    ensures b[at..at + |x|] == x
  {
  }

  lemma AssembledFields(b: Bytes, p: Pe, cells: seq<Cell>, gs: seq<Group>, pl: Payload, l: Layout)
    requires CellsReady(b, p, cells) && HasSlack(b, p) && CanAssemble(b, p, pl, l)
    ensures IsPrepared(b, p, cells, gs, pl, l, Assembled(b, p, cells, gs, pl, l))
  {
    hide CellsReady, CellHolds, InHeaderFields, InCells, Words, HeaderSize, Patched, PutCells, U32, SectionHeader, LE, Overlay, Offset,
      HasSlack;
    var restored := PutCells(p, cells, Overlay(b + Zeros(l.raw + l.rawSize - |b|), l.raw, pl.bytes));
    RestoredIs(b, p, cells, pl, l);
    SectionHeaderParts(|pl.bytes|, l);
    PatchedIs(p, restored, Words([l.rva, HeaderSize(gs)]), SectionHeader(|pl.bytes|, l), U32(b, p.opt + 8) + l.rawSize, l.imageSize);
    SliceIs(Assembled(b, p, cells, gs, pl, l), l.raw, pl.bytes);
  }

  lemma AssembledCells(b: Bytes, p: Pe, cells: seq<Cell>, gs: seq<Group>, pl: Payload, l: Layout)
    requires CellsReady(b, p, cells) && HasSlack(b, p) && CanAssemble(b, p, pl, l)
    ensures forall j :: 0 <= j < |cells| ==> CellHolds(p, cells[j], Assembled(b, p, cells, gs, pl, l))
  {
    hide Parse, CellHolds, InHeaderFields, Backing, Words, HeaderSize, Patched, PutCells, U32, SectionHeader, LE, Overlay, Offset;
    var restored := PutCells(p, cells, Overlay(b + Zeros(l.raw + l.rawSize - |b|), l.raw, pl.bytes));
    RestoredIs(b, p, cells, pl, l);
    PatchedIs(p, restored, Words([l.rva, HeaderSize(gs)]), SectionHeader(|pl.bytes|, l), U32(b, p.opt + 8) + l.rawSize, l.imageSize);
    forall j | 0 <= j < |cells| ensures CellHolds(p, cells[j], Assembled(b, p, cells, gs, pl, l)) {
      CellOffset(b, p, cells[j].iat);
      CellSurvives(p, cells[j], restored, Assembled(b, p, cells, gs, pl, l));
    }
  }

  /** The assembled image has every field where the header theorem expects it. */
  lemma AssembledIs(b: Bytes, p: Pe, cells: seq<Cell>, gs: seq<Group>, pl: Payload, l: Layout)
    requires CellsReady(b, p, cells) && HasSlack(b, p) && LayoutOk(p, |b|, |pl.bytes|, l) && PayloadIs(gs, l.rva, pl) && GroupsOk(gs)
    ensures CanAssemble(b, p, pl, l) && Accepted(b, p, cells, gs, pl, l, Assembled(b, p, cells, gs, pl, l))
    ensures forall j :: 0 <= j < |cells| ==> CellHolds(p, cells[j], Assembled(b, p, cells, gs, pl, l))
  {
    hide PayloadIs, GroupsOk, Parse, CellHolds, Backing, LayoutOk, IsPrepared, Assembled, HasSlack, CanAssemble;
    Assembles(b, p, pl, l);
    AssembledFields(b, p, cells, gs, pl, l);
    AssembledCells(b, p, cells, gs, pl, l);
  }

  /** Everything up to the final check. */
  method BuildImage(b: Bytes, p: Pe, cells: seq<Cell>, gs: seq<Group>, pl: Payload, l: Layout, initialized: nat) returns (out: Bytes)
    requires CellsReady(b, p, cells) && CanAssemble(b, p, pl, l) && initialized == U32(b, p.opt + 8) + l.rawSize
    ensures out == Assembled(b, p, cells, gs, pl, l)
  {
    hide CellsReady, PutCells, Patched, Words, HeaderSize, SectionHeader, Overlay;
    var image := b + Zeros(l.raw + l.rawSize - |b|);
    var filled := Overlay(image, l.raw, pl.bytes);
    var restored := RestoreCells(b, p, cells, filled);
    out := PatchHeader(p, restored, gs, |pl.bytes|, initialized, l);
  }

  lemma BeyondFile(b: Bytes, p: Pe, cells: seq<Cell>, k: nat)
    requires CellsReady(b, p, cells) && HasSlack(b, p) && k >= |b|
    ensures !InHeaderFields(p, k) && !InCells(p, cells, k)
  {
    hide Parse, Offset, Backing;
    ParsedFits(b);
    forall j | 0 <= j < |cells| ensures !InCell(p, cells[j], k) {
      CellOffset(b, p, cells[j].iat);
    }
  }

  lemma CellSurvives(p: Pe, c: Cell, before: Bytes, out: Bytes)
    requires CellHolds(p, c, before) && |out| == |before| && p.opt == p.pe + 24 && p.opt + 224 <= p.table
    requires NewHeader(p) + 40 <= p.headers <= Offset(p, c.iat, 4).value
    requires forall k :: 0 <= k < |before| && !InHeaderFields(p, k) ==> out[k] == before[k]
    ensures CellHolds(p, c, out)
  {
    hide Offset;
    var o := Offset(p, c.iat, 4).value;
    assert out[o..o + 4] == before[o..o + 4];
  }

  function LayoutFor(b: Bytes, p: Pe, payload: nat): Layout
    requires p.sectionAlignment > 0 && p.fileAlignment > 0
  {
    var rva := Align(EndOf(p.sections), p.sectionAlignment);
    Layout(rva, Align(|b|, p.fileAlignment), Align(payload, p.fileAlignment), Align(rva + payload, p.sectionAlignment))
  }

  /** The payload for these imports. */
  function PayloadFor(p: Pe, plan: Plan, xs: seq<Binding>): Payload
    requires p.sectionAlignment > 0
  {
    PayloadOf(GroupsOf(CellsOf(RerouteAll(plan, xs))), Align(EndOf(p.sections), p.sectionAlignment))
  }

  predicate Redirects(plan: Plan, xs: seq<Binding>) {
    exists j :: 0 <= j < |xs| && Migrates(plan, xs[j].dll, xs[j].symbol)
  }

  predicate Checks(out: Bytes) {
    Parse(out).Some? && Parse(out).value.opt + 224 <= |out| && Imports(out, Parse(out).value).Some?
  }

  /** The bits 0x40, 0x100, 0x4000 and 0x8000 are the only ones admitted. */
  predicate FlagsOk(flags: nat) { flags % 0x40 == 0 && flags / 0x80 % 2 == 0 && flags / 0x200 % 0x20 == 0 }

  /** A library that exports under the provider's own name keeps its native imports. */
  predicate ExportsOk(b: Bytes, p: Pe, provider: Bytes)
    requires p.opt + 224 <= |b|
  {
    var (rva, size) := Directory(b, p, 0);
    rva == 0 || (size >= 40 && match Offset(p, rva, 40)
                               case None => false
                               case Some(at) => at + 16 <= |b| && OtherName(StringAt(b, p, U32(b, at + 12)), provider))
  }

  predicate OtherName(name: Option<Bytes>, provider: Bytes) { name.Some? && UpperAll(name.value) != provider }

  /** Not the provider, not signed, not managed, a GUI or console program with known flags. */
  predicate Supported(b: Bytes, p: Pe, plan: Plan)
    requires p.opt + 224 <= |b|
  {
    && ExportsOk(b, p, plan.provider)
    && Directory(b, p, 4) == (0, 0) && Directory(b, p, 14) == (0, 0)
    && 2 <= U16(b, p.opt + 68) <= 3 && FlagsOk(U16(b, p.opt + 70))
  }

  /** The prepared image, if the preparation accepts. */
  function Prepared(b: Bytes, plan: Plan): Option<Bytes> {
    if Parse(b).None? then None
    else
      ParsedFits(b);
      var p := Parse(b).value;
      if !Supported(b, p, plan) || !HasSlack(b, p) || Imports(b, p).None? then None
      else
        var xs := Flatten(Imports(b, p).value);
        var pl := PayloadFor(p, plan, xs);
        var l := LayoutFor(b, p, |pl.bytes|);
        if !Redirects(plan, xs) || !LayoutOk(p, |b|, |pl.bytes|, l) || U32(b, p.opt + 8) + l.rawSize > LIMIT32 then None
        else
          Assembles(b, p, pl, l);
          var cells := CellsOf(RerouteAll(plan, xs));
          var out := Assembled(b, p, cells, GroupsOf(cells), pl, l);
          if Checks(out) then Some(out) else None
  }

  /** Prepares an image, or refuses it. */
  method Prepare(b: Bytes, plan: Plan) returns (r: Option<Bytes>)
    requires Readable(plan.provider)
    ensures r == Prepared(b, plan)
    ensures r.Some? ==> Parse(b).Some? && Parse(b).value.opt + 224 <= |b| && Imports(b, Parse(b).value).Some?
    ensures r.Some? ==> Preserved(b, Parse(b).value, plan, r.value)
  {
    hide Parse, Imports, CellsOf, RerouteAll, Flatten, LayoutOk, HasSlack, Migrates, CellOk, BindingsOk, CellsReady, Accepted, Preserved,
      Assembled, PayloadOf, GroupsOf, CanAssemble, Supported;
    if Parse(b).None? {
      return None;
    }
    var p := Parse(b).value;
    ParsedFits(b);
    if !Supported(b, p, plan) || !HasSlack(b, p) {
      return None;
    }
    var imports := ReadImports(b, p);
    if imports.None? {
      return None;
    }
    var bindings := Flatten(imports.value);
    ImportsFacts(b, p);
    if !Redirects(plan, bindings) {
      return None;
    }
    var cells := CellsOf(RerouteAll(plan, bindings));
    CellsAreReady(b, p, plan, bindings);
    var gs := GroupAll(cells);
    var pl := BuildPayload(gs, Align(EndOf(p.sections), p.sectionAlignment));
    var l := LayoutFor(b, p, |pl.bytes|);
    if !LayoutOk(p, |b|, |pl.bytes|, l) {
      return None;
    }
    var initialized := U32(b, p.opt + 8) + l.rawSize;
    if initialized > LIMIT32 {
      return None;
    }
    Assembles(b, p, pl, l);
    var out := BuildImage(b, p, cells, gs, pl, l, initialized);
    var again := Parse(out);
    if again.None? {
      return None;
    }
    ParsedFits(out);
    var check := ReadImports(out, again.value);
    if check.None? {
      return None;
    }
    PreparedPreserves(b, plan);
    return Some(out);
  }

  /**
   Import preservation. Every byte outside the listed header fields and the address-table cells
   is unchanged and every cell holds its lookup value. If the header pointer stays and the names
   lie outside the rewritten bytes, the loader binds the same symbols into the same cells in the
   same order, only the library rerouted.
   */
  lemma PreparedPreserves(b: Bytes, plan: Plan)
    requires Readable(plan.provider) && Prepared(b, plan).Some?
    ensures Parse(b).Some? && Parse(b).value.opt + 224 <= |b| && Imports(b, Parse(b).value).Some?
    ensures Preserved(b, Parse(b).value, plan, Prepared(b, plan).value)
  {
    hide Parse, Imports, CellsOf, RerouteAll, Flatten, LayoutOk, HasSlack, Migrates, CellOk, BindingsOk, CellsReady, Accepted, Preserved,
      Assembled, PayloadOf, GroupsOf, CanAssemble, Supported, AllCells, GroupsOk, PayloadIs, CellHolds;
    var p := Parse(b).value;
    ParsedFits(b);
    var xs := Flatten(Imports(b, p).value);
    var cells := CellsOf(RerouteAll(plan, xs));
    var gs, pl := GroupsOf(cells), PayloadFor(p, plan, xs);
    var l := LayoutFor(b, p, |pl.bytes|);
    ImportsFacts(b, p);
    CellsAreReady(b, p, plan, xs);
    GroupsOfIs(cells);
    PayloadOfIs(gs, l.rva);
    AssembledIs(b, p, cells, gs, pl, l);
    PreservedBy(b, p, plan, xs, gs, pl, l, Assembled(b, p, cells, gs, pl, l));
  }

  lemma CellsAreReady(b: Bytes, p: Pe, plan: Plan, xs: seq<Binding>)
    requires Parse(b) == Some(p) && BindingsOk(b, p, xs, {}) && Readable(plan.provider)
    ensures var cells := CellsOf(RerouteAll(plan, xs));
      CellsReady(b, p, cells) && forall i :: 0 <= i < |cells| ==> CellOk(cells[i])
  {
    hide Parse, SymbolAt, Readable, Backing, Offset, Migrates;
    var cells := CellsOf(RerouteAll(plan, xs));
    forall i | 0 <= i < |cells|
      ensures CellOk(cells[i]) && Backing(p.sections, cells[i].iat, 4).Some? && cells[i].iat % 4 == 0 && cells[i].iat == xs[i].iat
    {
      assert BindingOk(b, p, xs[i]);
      CellOffset(b, p, xs[i].iat);
    }
  }

  /** What a preparation preserves. */
  ghost predicate Preserved(b: Bytes, p: Pe, plan: Plan, out: Bytes)
    requires Parse(b) == Some(p) && p.opt + 224 <= |b| && Imports(b, p).Some?
  {
    var xs := Flatten(Imports(b, p).value);
    var cells := CellsOf(RerouteAll(plan, xs));
    && |b| <= |out|
    && (forall k :: 0 <= k < |b| && !Rewritten(p, cells, k) ==> out[k] == b[k])
    && (forall j :: 0 <= j < |cells| ==> CellHolds(p, cells[j], out))
    && (PointerLives(b, p, plan, xs) && NamesUntouched(p, xs, cells) ==> BindsSame(plan, xs, out))
  }

  /** The header pointer survives the patch of the initialized-data size. */
  ghost predicate PointerLives(b: Bytes, p: Pe, plan: Plan, xs: seq<Binding>) {
    && p.sectionAlignment > 0 && p.fileAlignment > 0 && |b| >= 64 && p.opt + 12 <= |b|
    && PointerStays(b, p, LayoutFor(b, p, |PayloadFor(p, plan, xs).bytes|).rawSize)
  }

  /** Flattening the new image's imports gives the old bindings, rerouted. */
  ghost predicate BindsSame(plan: Plan, xs: seq<Binding>, out: Bytes) {
    && Parse(out).Some? && Parse(out).value.opt + 224 <= |out| && Imports(out, Parse(out).value).Some?
    && Flatten(Imports(out, Parse(out).value).value) == RerouteAll(plan, xs)
  }

  lemma PreservedBy(b: Bytes, p: Pe, plan: Plan, xs: seq<Binding>, gs: seq<Group>, pl: Payload, l: Layout, out: Bytes)
    requires Parse(b) == Some(p) && p.opt + 224 <= |b| && Imports(b, p).Some? && xs == Flatten(Imports(b, p).value)
    requires var cells := CellsOf(RerouteAll(plan, xs));
      && Accepted(b, p, cells, gs, pl, l, out) && AllCells(gs) == cells && BindingsOk(b, p, xs, {})
      && forall j :: 0 <= j < |cells| ==> CellHolds(p, cells[j], out)
    requires p.sectionAlignment > 0 && p.fileAlignment > 0 && pl == PayloadFor(p, plan, xs) && l == LayoutFor(b, p, |pl.bytes|)
    requires Checks(out)
    ensures Preserved(b, p, plan, out)
  {
    hide Imports, Parse, CellsOf, RerouteAll, Flatten, PayloadIs, GroupsOk, LayoutOk, BindingsOk, NamesUntouched, PointerStays,
      CellHolds, Rewritten, AllCells, HasSlack, Backing, PayloadFor;
    var cells := CellsOf(RerouteAll(plan, xs));
    if PointerLives(b, p, plan, xs) && NamesUntouched(p, xs, cells) {
      HeaderRead(b, p, cells, gs, pl, l, out);
      var q := NewPe(p, |pl.bytes|, l);
      assert Parse(out).value == q;
      AllNamesKept(b, p, plan, xs, cells, gs, pl, l, out);
      ImportsRead(b, p, cells, gs, pl, l, out);
      SameBindings(b, p, plan, xs, gs);
    }
  }
}
