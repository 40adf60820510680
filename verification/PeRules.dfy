/**
 Which images the reader accepts and what it reads from them, by offsets, numbers and bits.
 */
module PeRules {
  import opened Options
  import opened PeFormat
  import opened PeRoute
  import opened PePrepare
  import opened PeImports
  import opened PeRouting

  // ---- Numbers ----

  function Two(b: Bytes, at: nat): nat
    requires at + 2 <= |b|
  {
    (b[at] as int) + 256 * (b[at + 1] as int)
  }

  function Four(b: Bytes, at: nat): nat
    requires at + 4 <= |b|
  {
    (b[at] as int) + 256 * (b[at + 1] as int) + 65536 * (b[at + 2] as int) + 16777216 * (b[at + 3] as int)
  }

  lemma NumbersAgree(b: Bytes, at: nat)
    requires at + 2 <= |b|
    ensures U16(b, at) == Two(b, at) && (at + 4 <= |b| ==> U32(b, at) == Four(b, at))
  {
    Bytes2(b, at);
    if at + 4 <= |b| {
      Bytes4(b, at);
    }
  }

  function Power(k: nat): nat { if k == 0 then 1 else 2 * Power(k - 1) }

  ghost predicate IsPower(n: nat) { exists k: nat :: n == Power(k) }

  lemma {:induction false} PowerRule(n: nat)
    ensures PowerOfTwo(n) <==> IsPower(n)
  {
    if n == 1 {
      assert n == Power(0);
    } else if n > 1 {
      PowerRule(n / 2);
      if PowerOfTwo(n) {
        var k: nat :| n / 2 == Power(k);
        assert n == Power(k + 1);
      }
      if k: nat :| n == Power(k) {
        assert n == 2 * Power(k - 1);
        assert n / 2 == Power(k - 1);
      }
    } else {
      forall k: nat ensures n != Power(k) {
        PowerPositive(k);
      }
    }
  }

  lemma PowerPositive(k: nat)
    ensures Power(k) > 0
  {
  }

  /** Rounding up to a multiple: the least one that is not below. */
  lemma AlignRule(value: nat, alignment: nat)
    requires alignment > 0
    ensures exists k: nat :: Align(value, alignment) == k * alignment
    ensures value <= Align(value, alignment) < value + alignment
  {
    AlignBounds(value, alignment);
    var k := (value + alignment - 1) / alignment;
    assert Align(value, alignment) == k * alignment;
  }

  // ---- Flags ----

  predicate Admitted(flags: nat, a: nat, b: nat, c: nat, d: nat) {
    a < 2 && b < 2 && c < 2 && d < 2 && flags == 0x40 * a + 0x100 * b + 0x4000 * c + 0x8000 * d
  }

  lemma AdmittedPass(flags: nat, a: nat, b: nat, c: nat, d: nat)
    requires Admitted(flags, a, b, c, d)
    ensures FlagsOk(flags)
  {
    assert flags == 0x40 * (a + 4 * b + 0x100 * c + 0x200 * d);
    assert flags / 0x80 == 2 * b + 0x80 * c + 0x100 * d;
    assert flags / 0x200 == 0x20 * c + 0x40 * d;
  }

  lemma OthersFail(flags: nat) returns (a: nat, b: nat, c: nat, d: nat)
    requires flags < 0x1_0000 && FlagsOk(flags)
    ensures Admitted(flags, a, b, c, d)
  {
    var x1 := flags / 0x40;
    var x2 := flags / 0x80;
    var x4 := flags / 0x200;
    assert flags == 0x40 * x1 && x1 == 2 * x2 + x1 % 2;
    a := x1 % 2;
    var x3 := x2 / 2;
    assert x2 == 2 * x3 && x4 == x3 / 2;
    b := x3 % 2;
    var x5 := x4 / 0x20;
    assert x4 == 0x20 * x5 && x5 < 4;
    c, d := x5 % 2, x5 / 2;
  }

  /** Only the bits 0x40, 0x100, 0x4000 and 0x8000 may be set. */
  lemma FlagsRule(flags: nat)
    requires flags < 0x1_0000
    ensures FlagsOk(flags) <==> exists a: nat, b: nat, c: nat, d: nat :: Admitted(flags, a, b, c, d)
  {
    hide FlagsOk, Admitted;
    if FlagsOk(flags) {
      var a, b, c, d := OthersFail(flags);
    }
    forall a: nat, b: nat, c: nat, d: nat | Admitted(flags, a, b, c, d) ensures FlagsOk(flags) {
      AdmittedPass(flags, a, b, c, d);
    }
  }

  /** A section holds initialized data for the loader: bits 0x40 and 0x40000000 set, 0x20 and 0x20000000 clear. */
  lemma DataRule(low: nat, code: nat, data: nat, middle: nat, execute: nat, read: nat, write: nat)
    requires low < 0x20 && code < 2 && data < 2 && middle < 0x40_0000 && execute < 2 && read < 2 && write < 2
    ensures IsInitializedData(low + 0x20 * code + 0x40 * data + 0x80 * middle + 0x2000_0000 * execute + 0x4000_0000 * read + 0x8000_0000 * write)
      <==> code == 0 && data == 1 && execute == 0 && read == 1
  {
    var flags := low + 0x20 * code + 0x40 * data + 0x80 * middle + 0x2000_0000 * execute + 0x4000_0000 * read + 0x8000_0000 * write;
    assert flags / 0x20 == code + 2 * (data + 2 * (middle + 0x40_0000 * (execute + 2 * (read + 2 * write))));
    assert flags / 0x40 == data + 2 * (middle + 0x40_0000 * (execute + 2 * (read + 2 * write)));
    assert flags / 0x2000_0000 == execute + 2 * (read + 2 * write);
    assert flags / 0x4000_0000 == read + 2 * write;
  }

  // ---- Headers ----

  /** The DOS and PE signatures, an x86 PE32 header with sixteen directories, sound alignments, room for the section table. */
  ghost predicate GoodHeader(b: Bytes) {
    && |b| >= 64 && b[0] == 'M' as int && b[1] == 'Z' as int
    && var pe := Four(b, 60);
    && pe + 24 <= |b| && b[pe] == 'P' as int && b[pe + 1] == 'E' as int && b[pe + 2] == 0 && b[pe + 3] == 0
    && Two(b, pe + 4) == 0x14C
    && var size := Two(b, pe + 20);
    && 224 <= size && pe + 24 + size <= |b| && Two(b, pe + 24) == 0x10B && Four(b, pe + 116) == 16
    && var section, file := Four(b, pe + 56), Four(b, pe + 60);
    && 512 <= file <= 65536 && 4096 <= section && file <= section
    && IsPower(section) && IsPower(file)
    && Four(b, pe + 84) <= |b|
    && 1 <= Two(b, pe + 6) <= 95 && pe + 24 + size + 40 * Two(b, pe + 6) <= Four(b, pe + 84)
  }

  lemma HeaderRule(b: Bytes)
    ensures HeaderOk(b) <==> GoodHeader(b)
  {
    hide U16, U32, PowerOfTwo, IsPower, Two, Four;
    if |b| >= 64 {
      NumbersAgree(b, 60);
      var pe := Four(b, 60);
      if pe + 24 <= |b| {
        NumbersAgree(b, pe + 4);
        NumbersAgree(b, pe + 6);
        NumbersAgree(b, pe + 20);
        SignatureRule(b, pe);
        if Two(b, pe + 20) >= 224 && pe + 24 + Two(b, pe + 20) <= |b| {
          NumbersAgree(b, pe + 24);
          NumbersAgree(b, pe + 56);
          NumbersAgree(b, pe + 60);
          NumbersAgree(b, pe + 84);
          NumbersAgree(b, pe + 116);
          PowerRule(Four(b, pe + 56));
          PowerRule(Four(b, pe + 60));
        }
      }
    }
  }

  lemma SignatureRule(b: Bytes, pe: nat)
    requires pe + 4 <= |b|
    ensures b[pe..pe + 4] == [80, 69, 0, 0] <==> b[pe] == 80 && b[pe + 1] == 69 && b[pe + 2] == 0 && b[pe + 3] == 0
  {
    var s := b[pe..pe + 4];
    assert s[0] == b[pe] && s[1] == b[pe + 1] && s[2] == b[pe + 2] && s[3] == b[pe + 3];
  }

  /** Section `i` of the table: address, the larger of its two sizes, file position, size in the file, flags. */
  lemma SectionRule(b: Bytes, i: nat)
    requires HeaderOk(b) && i < HeaderOf(b).count
    ensures var p := HeaderOf(b);
      && p.pe == Four(b, 60) && p.count == Two(b, p.pe + 6) && p.opt == p.pe + 24 && p.table == p.opt + Two(b, p.pe + 20)
      && p.headers == Four(b, p.pe + 84) && p.sectionAlignment == Four(b, p.pe + 56) && p.fileAlignment == Four(b, p.pe + 60)
      && |p.sections| == p.count && p.table + 40 * i + 40 <= |b|
      && var s, at := p.sections[i], p.table + 40 * i;
      && s.va == Four(b, at + 12) && s.rp == Four(b, at + 20) && s.rs == Four(b, at + 16) && s.flags == Four(b, at + 36)
      && s.span == if Four(b, at + 8) < Four(b, at + 16) then Four(b, at + 16) else Four(b, at + 8)
  {
    hide U16, U32, Two, Four, PowerOfTwo;
    var p := HeaderOf(b);
    NumbersAgree(b, 60);
    NumbersAgree(b, p.pe + 6);
    NumbersAgree(b, p.pe + 20);
    NumbersAgree(b, p.pe + 56);
    NumbersAgree(b, p.pe + 60);
    NumbersAgree(b, p.pe + 84);
    var at := p.table + 40 * i;
    NumbersAgree(b, at + 8);
    NumbersAgree(b, at + 12);
    NumbersAgree(b, at + 16);
    NumbersAgree(b, at + 20);
    NumbersAgree(b, at + 36);
  }

  /** The ranges [a, a + n) and [c, c + m) share a point. */
  ghost predicate Meet(a: nat, n: nat, c: nat, m: nat) { exists x: nat :: Within(x, a, n) && Within(x, c, m) }

  predicate Within(x: nat, a: nat, n: nat) { a <= x < a + n }

  lemma MeetRule(a: nat, n: nat, c: nat, m: nat)
    ensures Overlap(a, n, c, m) <==> Meet(a, n, c, m)
  {
    if Overlap(a, n, c, m) {
      var x := if a < c then c else a;
      assert Within(x, a, n) && Within(x, c, m);
    }
  }

  /**
   An image is accepted if its header is good; every section lies behind the headers, aligned, below
   4 GiB and, as far as it has file data, inside the file; no two sections share an address or a
   file byte; and the image size covers the last section, rounded up.
   */
  lemma ParseRule(b: Bytes)
    ensures Parse(b).Some? <==> GoodHeader(b) && GoodSections(b)
  {
    hide GoodHeader;
    HeaderRule(b);
    if HeaderOk(b) {
      var p := HeaderOf(b);
      HeaderFits(b);
      NumbersAgree(b, p.opt + 56);
      hide HeaderOk, HeaderOf, U32, Four, EndOf, Align;
      forall i, j | 0 <= i < j < |p.sections|
        ensures var s, t := p.sections[i], p.sections[j];
          (Overlap(s.va, s.span, t.va, t.span) <==> Meet(s.va, s.span, t.va, t.span))
          && (Overlap(s.rp, s.rs, t.rp, t.rs) <==> Meet(s.rp, s.rs, t.rp, t.rs))
      {
        MeetRule(p.sections[i].va, p.sections[i].span, p.sections[j].va, p.sections[j].span);
        MeetRule(p.sections[i].rp, p.sections[i].rs, p.sections[j].rp, p.sections[j].rs);
      }
      hide Overlap, Meet;
      forall i | 0 <= i < |p.sections| ensures SectionOk(p, p.sections[i], |b|) <==> GoodSection(p, p.sections[i], |b|) {
      }
    }
  }

  lemma HeaderFits(b: Bytes)
    requires HeaderOk(b)
    ensures var p := HeaderOf(b);
      p.sectionAlignment > 0 && p.fileAlignment > 0 && p.opt + 60 <= |b| && p.opt == p.pe + 24
  {
  }

  predicate GoodSection(p: Pe, s: Section, size: nat)
    requires p.sectionAlignment > 0 && p.fileAlignment > 0
  {
    && p.headers <= s.va && s.va % p.sectionAlignment == 0 && s.va + s.span < 0x1_0000_0000
    && (s.rs > 0 ==> p.headers <= s.rp && s.rp % p.fileAlignment == 0 && s.rs % p.fileAlignment == 0 && s.rp + s.rs <= size)
  }

  ghost predicate GoodSections(b: Bytes) {
    HeaderOk(b) ==>
      var p := HeaderOf(b);
      && p.sectionAlignment > 0 && p.fileAlignment > 0 && p.opt + 60 <= |b|
      && (forall i :: 0 <= i < |p.sections| ==> GoodSection(p, p.sections[i], |b|))
      && (forall i, j :: 0 <= i < j < |p.sections| ==>
            var s, t := p.sections[i], p.sections[j]; !Meet(s.va, s.span, t.va, t.span) && !Meet(s.rp, s.rs, t.rp, t.rs))
      && Four(b, p.opt + 56) >= Align(EndOf(p.sections), p.sectionAlignment)
  }

  /** The end of the sections is the largest of their ends. */
  lemma {:induction false} EndRule(ss: seq<Section>)
    ensures forall i :: 0 <= i < |ss| ==> ss[i].va + ss[i].span <= EndOf(ss)
    ensures ss != [] ==> EndOf(ss) == 0 || exists i :: 0 <= i < |ss| && ss[i].va + ss[i].span == EndOf(ss)
  {
    if ss != [] {
      var front := ss[..|ss| - 1];
      EndRule(front);
      assert forall i :: 0 <= i < |front| ==> ss[i] == front[i];
    }
  }

  // ---- Addresses and strings ----

  /** Section `i` backs these addresses with file bytes. */
  predicate Backs(p: Pe, i: nat, rva: nat, length: nat)
    requires i < |p.sections|
  {
    p.sections[i].va <= rva && rva + length <= p.sections[i].va + p.sections[i].rs
  }

  lemma {:induction false} BackingAt(ss: seq<Section>, rva: nat, length: nat, i: nat)
    requires i < |ss| && InRaw(ss[i], rva, length) && forall j :: 0 <= j < i ==> !InRaw(ss[j], rva, length)
    ensures Backing(ss, rva, length) == Some(ss[i])
  {
    if i > 0 {
      assert forall j :: 0 <= j < i - 1 ==> ss[1..][j] == ss[j + 1];
      BackingAt(ss[1..], rva, length, i - 1);
    }
  }

  /** Addresses inside the headers are file offsets; others go through the first section that backs all of them. */
  lemma OffsetRule(p: Pe, rva: nat, length: nat)
    ensures rva < p.headers && rva + length <= p.headers ==> Offset(p, rva, length) == Some(rva)
    ensures forall i :: (0 <= i < |p.sections| && !(rva < p.headers && rva + length <= p.headers) && Backs(p, i, rva, length)
                         && (forall j :: 0 <= j < i ==> !Backs(p, j, rva, length))) ==>
              Offset(p, rva, length) == Some(rva - p.sections[i].va + p.sections[i].rp)
    ensures !(rva < p.headers && rva + length <= p.headers) && (forall i :: 0 <= i < |p.sections| ==> !Backs(p, i, rva, length)) ==>
              Offset(p, rva, length) == None
  {
    forall i | 0 <= i < |p.sections| && Backs(p, i, rva, length) && (forall j :: 0 <= j < i ==> !Backs(p, j, rva, length))
      ensures Backing(p.sections, rva, length) == Some(p.sections[i])
    {
      assert forall j :: 0 <= j < i ==> InRaw(p.sections[j], rva, length) ==> Backs(p, j, rva, length);
      BackingAt(p.sections, rva, length, i);
    }
    if forall i :: 0 <= i < |p.sections| ==> !Backs(p, i, rva, length) {
      BackingIs(p.sections, rva, length);
      if Backing(p.sections, rva, length).Some? {
        var i :| 0 <= i < |p.sections| && p.sections[i] == Backing(p.sections, rva, length).value;
        assert Backs(p, i, rva, length);
      }
    }
  }

  /** The first section that backs the address may hold import cells. */
  predicate HoldsCells(p: Pe, rva: nat) {
    exists i :: 0 <= i < |p.sections| && Backs(p, i, rva, 4) && (forall j :: 0 <= j < i ==> !Backs(p, j, rva, 4))
                && IsInitializedData(p.sections[i].flags)
  }

  predicate InTable(a: nat, start: nat, size: nat) { start <= a < start + size }

  /** A cell lies in initialized data and, if the image declares an address table (directory 12), all of it in there. */
  lemma IatRule(b: Bytes, p: Pe, rva: nat)
    requires p.opt + 224 <= |b|
    ensures var start, size := Four(b, p.opt + 192), Four(b, p.opt + 196);
      IatOk(b, p, rva) <==> HoldsCells(p, rva) && (start == 0 || forall a :: rva <= a < rva + 4 ==> InTable(a, start, size))
  {
    NumbersAgree(b, p.opt + 192);
    NumbersAgree(b, p.opt + 196);
    hide U32, Four, IsInitializedData;
    HoldsIff(p, rva);
    WindowIff(rva, Four(b, p.opt + 192), Four(b, p.opt + 196));
  }

  lemma WindowIff(rva: nat, start: nat, size: nat)
    ensures (forall a :: rva <= a < rva + 4 ==> InTable(a, start, size)) <==> start <= rva && rva + 4 <= start + size
  {
    assert InTable(rva, start, size) && InTable(rva + 3, start, size) ==> start <= rva && rva + 4 <= start + size;
  }

  lemma HoldsIff(p: Pe, rva: nat)
    ensures HoldsCells(p, rva) <==> Backing(p.sections, rva, 4).Some? && IsInitializedData(Backing(p.sections, rva, 4).value.flags)
  {
    hide IsInitializedData;
    BackingFirst(p, rva);
    forall i | 0 <= i < |p.sections| && Backs(p, i, rva, 4) && (forall j :: 0 <= j < i ==> !Backs(p, j, rva, 4))
      ensures Backing(p.sections, rva, 4) == Some(p.sections[i])
    {
      assert forall j :: 0 <= j < i ==> InRaw(p.sections[j], rva, 4) ==> Backs(p, j, rva, 4);
      BackingAt(p.sections, rva, 4, i);
    }
  }

  /** Where there is a backing section, it is the first that backs the address. */
  lemma BackingFirst(p: Pe, rva: nat)
    ensures Backing(p.sections, rva, 4).Some? ==>
      exists i :: 0 <= i < |p.sections| && Backs(p, i, rva, 4) && (forall j :: 0 <= j < i ==> !Backs(p, j, rva, 4))
                  && p.sections[i] == Backing(p.sections, rva, 4).value
  {
    if Backing(p.sections, rva, 4).Some? {
      var i := FirstBacking(p.sections, rva);
      assert Backs(p, i, rva, 4);
      assert forall j :: 0 <= j < i ==> Backs(p, j, rva, 4) ==> InRaw(p.sections[j], rva, 4);
    }
  }

  lemma {:induction false} FirstBacking(ss: seq<Section>, rva: nat) returns (i: nat)
    requires Backing(ss, rva, 4).Some?
    ensures i < |ss| && InRaw(ss[i], rva, 4) && ss[i] == Backing(ss, rva, 4).value && forall j :: 0 <= j < i ==> !InRaw(ss[j], rva, 4)
  {
    if InRaw(ss[0], rva, 4) {
      i := 0;
    } else {
      i := FirstBacking(ss[1..], rva);
      i := i + 1;
    }
  }

  /** The byte at this address is mapped, inside the file, and has this value. */
  predicate ByteAt(b: Bytes, p: Pe, a: nat, v: nat) {
    Offset(p, a, 1).Some? && Offset(p, a, 1).value < |b| && b[Offset(p, a, 1).value] == v
  }

  /** The characters stand at the address, one by one, and a zero behind them. */
  predicate SpelledAt(b: Bytes, p: Pe, rva: nat, s: Bytes) {
    (forall k :: 0 <= k < |s| ==> ByteAt(b, p, rva + k, s[k]) && 0 < s[k] < 0x80) && ByteAt(b, p, rva + |s|, 0)
  }

  /** A string is ASCII without zeros, ends with a zero, and has fewer than 4096 characters. */
  lemma StringRule(b: Bytes, p: Pe, rva: nat, s: Bytes)
    ensures StringAt(b, p, rva) == Some(s) <==> |s| < 4096 && SpelledAt(b, p, rva, s)
  {
    StringFromRule(b, p, rva, 4096, s);
  }

  lemma {:induction false} StringFromRule(b: Bytes, p: Pe, rva: nat, left: nat, s: Bytes)
    ensures StringFrom(b, p, rva, left) == Some(s) <==> |s| < left && SpelledAt(b, p, rva, s)
    decreases left
  {
    hide Offset;
    if left > 0 {
      var o := Offset(p, rva, 1);
      if o.Some? && o.value < |b| && 0 < b[o.value] < 0x80 {
        if s != [] {
          StringFromRule(b, p, rva + 1, left - 1, s[1..]);
          assert [s[0]] + s[1..] == s;
          SpelledRest(b, p, rva, s);
          match StringFrom(b, p, rva + 1, left - 1) {
            case None =>
            case Some(rest) => assert ([b[o.value]] + rest)[1..] == rest && ([b[o.value]] + rest)[0] == b[o.value];
          }
        } else {
          assert !ByteAt(b, p, rva + |s|, 0);
        }
      } else {
        if s != [] {
          SpelledRest(b, p, rva, s);
        }
      }
    }
  }

  lemma SpelledRest(b: Bytes, p: Pe, rva: nat, s: Bytes)
    requires s != []
    ensures SpelledAt(b, p, rva, s) <==> ByteAt(b, p, rva, s[0]) && 0 < s[0] < 0x80 && SpelledAt(b, p, rva + 1, s[1..])
  {
    hide ByteAt;
    if SpelledAt(b, p, rva, s) {
      assert ByteAt(b, p, rva + 0, s[0]);
      forall k | 0 <= k < |s[1..]| ensures ByteAt(b, p, rva + 1 + k, s[1..][k]) && 0 < s[1..][k] < 0x80 {
        assert s[1..][k] == s[k + 1] && ByteAt(b, p, rva + (k + 1), s[k + 1]);
      }
    }
    if ByteAt(b, p, rva, s[0]) && 0 < s[0] < 0x80 && SpelledAt(b, p, rva + 1, s[1..]) {
      forall k | 0 <= k < |s| ensures ByteAt(b, p, rva + k, s[k]) && 0 < s[k] < 0x80 {
        if k > 0 {
          assert s[1..][k - 1] == s[k] && ByteAt(b, p, rva + 1 + (k - 1), s[1..][k - 1]);
        }
      }
    }
  }

  // ---- Imports ----

  /** A lookup value imports by ordinal if its top bit is set, else by the non-empty name two bytes behind its address. */
  lemma SymbolRule(b: Bytes, p: Pe, value: nat, name: Bytes)
    ensures value >= 0x8000_0000 ==> SymbolAt(b, p, value) == if value < 0x8001_0000 then Some(None) else None
    ensures value < 0x8000_0000 ==>
      (SymbolAt(b, p, value) == Some(Some(name)) <==>
         Offset(p, value, 2).Some? && 0 < |name| < 4096 && SpelledAt(b, p, value + 2, name))
  {
    StringRule(b, p, value + 2, name);
    hide Offset, StringFrom;
  }

  /** Entry `k` stands at `lookup + 4k` and belongs to the cell `ft + 4k`; the value behind the last is zero. */
  lemma {:induction false} EntriesRule(b: Bytes, p: Pe, lookup: nat, ft: nat, claimed: set<nat>, left: nat)
    requires p.opt + 224 <= |b| && Entries(b, p, lookup, ft, claimed, left).Some?
    ensures var es := Entries(b, p, lookup, ft, claimed, left).value.entries;
      && |es| < left && Value32(b, p, lookup + 4 * |es|) == Some(0)
      && forall k :: 0 <= k < |es| ==>
           && Value32(b, p, lookup + 4 * k) == Some(es[k].value) && es[k].value != 0 && es[k].iat == ft + 4 * k
           && SymbolAt(b, p, es[k].value) == Some(es[k].symbol)
    decreases left
  {
    hide Value32, SymbolAt, IatOk;
    var value := Value32(b, p, lookup).value;
    if value != 0 {
      EntriesRule(b, p, lookup + 4, ft + 4, claimed + {ft}, left - 1);
      var rest := Entries(b, p, lookup + 4, ft + 4, claimed + {ft}, left - 1).value.entries;
      var es := Entries(b, p, lookup, ft, claimed, left).value.entries;
      assert es[1..] == rest;
      forall k | 0 < k < |es|
        ensures Value32(b, p, lookup + 4 * k) == Some(es[k].value) && es[k].value != 0 && es[k].iat == ft + 4 * k
        ensures SymbolAt(b, p, es[k].value) == Some(es[k].symbol)
      {
        assert es[k] == rest[k - 1] && lookup + 4 + 4 * (k - 1) == lookup + 4 * k && ft + 4 + 4 * (k - 1) == ft + 4 * k;
      }
      assert lookup + 4 + 4 * |rest| == lookup + 4 * |es|;
    }
  }

  /** Descriptor `i` stands at `at + 20i`: library name at its fourth number, lookup table at its first, or else its last. */
  lemma {:induction false} DescriptorsRule(b: Bytes, p: Pe, at: nat, claimed: set<nat>, left: nat)
    requires p.opt + 224 <= |b| && Descriptors(b, p, at, claimed, left).Some?
    ensures var ds := Descriptors(b, p, at, claimed, left).value;
      && |ds| < left && at + 20 * |ds| + 20 <= |b|
      && (forall j :: 0 <= j < 5 ==> Four(b, at + 20 * |ds| + 4 * j) == 0)
      && forall i :: 0 <= i < |ds| ==> DescribedAt(b, p, at + 20 * i, ds[i])
    decreases left
  {
    hide Entries, StringFrom, DllOk, Four, U32;
    RawRule(b, at);
    var r := RawAt(b, at);
    if r != EMPTY {
      var parsed := Entries(b, p, if r.oft != 0 then r.oft else r.ft, r.ft, claimed, MAX_IMPORTS).value;
      DescriptorsRule(b, p, at + 20, parsed.claimed, left - 1);
      var rest := Descriptors(b, p, at + 20, parsed.claimed, left - 1).value;
      var ds := Descriptors(b, p, at, claimed, left).value;
      assert ds[1..] == rest;
      DescribedHere(b, p, at, claimed, ds[0]);
      hide DescribedAt;
      forall i | 0 < i < |ds| ensures DescribedAt(b, p, at + 20 * i, ds[i]) {
        assert ds[i] == rest[i - 1] && at + 20 + 20 * (i - 1) == at + 20 * i;
      }
      assert at + 20 + 20 * |rest| == at + 20 * |ds|;
    }
  }

  lemma RawRule(b: Bytes, at: nat)
    requires at + 20 <= |b|
    ensures RawAt(b, at) == Raw(Four(b, at), Four(b, at + 4), Four(b, at + 8), Four(b, at + 12), Four(b, at + 16))
  {
    NumbersAgree(b, at);
    NumbersAgree(b, at + 4);
    NumbersAgree(b, at + 8);
    NumbersAgree(b, at + 12);
    NumbersAgree(b, at + 16);
    hide Four, U32;
  }

  /** What a descriptor's five numbers lead to. */
  predicate DescribedAt(b: Bytes, p: Pe, at: nat, d: Descriptor) {
    && at + 20 <= |b| && d.dll != [] && d.entries != [] && StringAt(b, p, Four(b, at + 12)) == Some(d.dll)
    && (forall k :: 0 <= k < |d.dll| ==> d.dll[k] != '/' as int && d.dll[k] != '\\' as int && d.dll[k] != ':' as int)
    && var lookup := if Four(b, at) != 0 then Four(b, at) else Four(b, at + 16);
    && Value32(b, p, lookup + 4 * |d.entries|) == Some(0)
    && forall k :: 0 <= k < |d.entries| ==>
         && Value32(b, p, lookup + 4 * k) == Some(d.entries[k].value) && d.entries[k].value != 0
         && d.entries[k].iat == Four(b, at + 16) + 4 * k && SymbolAt(b, p, d.entries[k].value) == Some(d.entries[k].symbol)
  }

  lemma DescribedHere(b: Bytes, p: Pe, at: nat, claimed: set<nat>, d: Descriptor)
    requires p.opt + 224 <= |b| && at + 20 <= |b| && RawOk(RawAt(b, at)) && DllOk(d.dll) && d.entries != []
    requires StringAt(b, p, RawAt(b, at).name) == Some(d.dll)
    requires var r := RawAt(b, at);
      var parsed := Entries(b, p, if r.oft != 0 then r.oft else r.ft, r.ft, claimed, MAX_IMPORTS); parsed.Some? && parsed.value.entries == d.entries
    ensures DescribedAt(b, p, at, d)
  {
    hide Entries, StringFrom, Value32, SymbolAt, Four, U32;
    RawRule(b, at);
    var r := RawAt(b, at);
    EntriesRule(b, p, if r.oft != 0 then r.oft else r.ft, r.ft, claimed, MAX_IMPORTS);
  }

  // ---- What is prepared at all ----

  /** The image exports under a name that is the provider's, small letters read as capitals, or its exports cannot be read. */
  ghost predicate ExportsRefused(b: Bytes, p: Pe, provider: Bytes)
    requires p.opt + 224 <= |b|
  {
    var rva, size := Four(b, p.opt + 96), Four(b, p.opt + 100);
    rva != 0 && !(size >= 40 && exists at: nat, name: Bytes :: ExportsOther(b, p, rva, at, name, provider))
  }

  ghost predicate ExportsOther(b: Bytes, p: Pe, rva: nat, at: nat, name: Bytes, provider: Bytes) {
    Offset(p, rva, 40) == Some(at) && at + 16 <= |b| && StringAt(b, p, Four(b, at + 12)) == Some(name) && !IsSource(name, provider)
  }

  lemma ExportsRule(b: Bytes, p: Pe, provider: Bytes)
    requires p.opt + 224 <= |b|
    ensures ExportsOk(b, p, provider) <==> !ExportsRefused(b, p, provider)
  {
    hide U32, Four, Offset, StringFrom, UpperAll, IsSource;
    NumbersAgree(b, p.opt + 96);
    NumbersAgree(b, p.opt + 100);
    var rva := Four(b, p.opt + 96);
    var o := Offset(p, rva, 40);
    if o.Some? && o.value + 16 <= |b| {
      NumbersAgree(b, o.value + 12);
      var s := StringAt(b, p, Four(b, o.value + 12));
      if s.Some? {
        UpperIs(s.value, provider);
        assert ExportsOther(b, p, rva, o.value, s.value, provider) <==> !IsSource(s.value, provider);
      }
    }
  }

  lemma UpperIs(name: Bytes, provider: Bytes)
    ensures UpperAll(name) == provider <==> IsSource(name, provider)
  {
    MigratesIff(Plan(provider, [], {[]}), name, Some([]));
  }

  /** Signed and managed images, other subsystems than 2 and 3, and flags not admitted are refused as well. */
  lemma SupportedRule(b: Bytes, p: Pe, plan: Plan)
    requires p.opt + 224 <= |b|
    ensures Supported(b, p, plan) <==>
      && !ExportsRefused(b, p, plan.provider)
      && Four(b, p.opt + 128) == 0 && Four(b, p.opt + 132) == 0 && Four(b, p.opt + 208) == 0 && Four(b, p.opt + 212) == 0
      && (Two(b, p.opt + 68) == 2 || Two(b, p.opt + 68) == 3) && FlagsOk(Two(b, p.opt + 70))
  {
    hide ExportsOk, ExportsRefused, FlagsOk, U16, U32, Two, Four;
    ExportsRule(b, p, plan.provider);
    NumbersAgree(b, p.opt + 128);
    NumbersAgree(b, p.opt + 132);
    NumbersAgree(b, p.opt + 208);
    NumbersAgree(b, p.opt + 212);
    NumbersAgree(b, p.opt + 68);
    NumbersAgree(b, p.opt + 70);
  }
}
