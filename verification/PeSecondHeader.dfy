/**
 Why import preservation needs the header pointer to stay: an image whose initialized-data size
 is stored in the pointer's own bytes. Patching that size moves the pointer by the size of the new
 section, onto a second, untouched header, and the loader binds what that header says.
 */
module PeSecondHeader {
  import opened Modular
  import opened Options
  import opened ByteStrings
  import opened PeFormat
  import opened PeRoute
  import opened PePrepare
  import opened PeImports

  // ---- What a header at `pe` and the one section must hold ----

  const SECTION := Section(4096, 512, 1024, 512, 0x4000_0040)

  /** The words of the headers at `pe`: one section, import directory at the section's start. */
  ghost predicate HeaderWords(b: Bytes, pe: nat) {
    && pe + 288 <= 1024 <= |b|
    && U32(b, pe) == 0x4550 && U32(b, pe + 4) == 0x1_014C && U32(b, pe + 20) == 224
    && U32(b, pe + 24) == 0x10B && U32(b, pe + 56) == 4096 && U32(b, pe + 60) == 512
    && U32(b, pe + 80) == 8192 && U32(b, pe + 84) == 1024 && U32(b, pe + 116) == 16
    && U32(b, pe + 128) == 4096 && U32(b, pe + 132) == 40 && U32(b, pe + 216) == 0 && U32(b, pe + 220) == 0
    && U32(b, pe + 256) == 512 && U32(b, pe + 260) == 4096 && U32(b, pe + 264) == 512 && U32(b, pe + 268) == 1024
    && U32(b, pe + 284) == 0x4000_0040
  }

  /** The section: one descriptor, its lookup and address tables, the two names. */
  ghost predicate SectionWords(b: Bytes) {
    && |b| >= 1536
    && U32(b, 1024) == 4136 && U32(b, 1028) == 0 && U32(b, 1032) == 0 && U32(b, 1036) == 4172 && U32(b, 1040) == 4144
    && U32(b, 1044) == 0 && U32(b, 1048) == 0 && U32(b, 1052) == 0 && U32(b, 1056) == 0 && U32(b, 1060) == 0
    && U32(b, 1064) == 4152 && U32(b, 1068) == 0
    && b[1082..1097] == SYMBOL + [0] && b[1100..1113] == SOURCE + [0]
  }

  ghost predicate ReadsHeader(b: Bytes, pe: nat) {
    |b| >= 1536 && b[0] == 77 && b[1] == 90 && U32(b, 60) == pe && HeaderWords(b, pe) && SectionWords(b)
  }

  function OneSection(pe: nat): Pe { Pe(pe, 1, pe + 24, pe + 248, 1024, 4096, 512, [SECTION]) }

  /** The rerouted library KERNEL32.DLL, its provider NTW32.DLL and the rerouted symbol GetTickCount64. */
  const SOURCE: Bytes := [75, 69, 82, 78, 69, 76, 51, 50, 46, 68, 76, 76]
  const PROVIDER: Bytes := [78, 84, 87, 51, 50, 46, 68, 76, 76]
  const SYMBOL: Bytes := [71, 101, 116, 84, 105, 99, 107, 67, 111, 117, 110, 116, 54, 52]

  const IMPORTS := [Descriptor(SOURCE, [Entry(4152, Some(SYMBOL), 4144)])]

  lemma Halves(b: Bytes, at: nat)
    requires at + 4 <= |b|
    ensures U16(b, at) == U32(b, at) % 65536 && U16(b, at + 2) == U32(b, at) / 65536
  {
    Bytes4(b, at);
    Bytes2(b, at);
    Bytes2(b, at + 2);
  }

  lemma Powers()
    ensures PowerOfTwo(512) && PowerOfTwo(4096)
  {
    assert PowerOfTwo(1) && PowerOfTwo(2) && PowerOfTwo(4) && PowerOfTwo(8) && PowerOfTwo(16);
    assert PowerOfTwo(32) && PowerOfTwo(64) && PowerOfTwo(128) && PowerOfTwo(256) && PowerOfTwo(512);
    assert PowerOfTwo(1024) && PowerOfTwo(2048);
  }

  lemma HeaderParses(b: Bytes, pe: nat)
    requires ReadsHeader(b, pe)
    ensures HeaderOk(b) && HeaderOf(b) == OneSection(pe)
  {
    hide U16, U32, PowerOfTwo;
    Powers();
    Halves(b, pe + 4);
    Halves(b, pe + 20);
    Halves(b, pe + 24);
    Bytes4(b, pe);
    assert b[pe..pe + 4] == [80, 69, 0, 0];
    assert SectionAt(b, pe + 248) == SECTION;
    assert HeaderOf(b).sections == [SECTION];
  }

  lemma Parses(b: Bytes, pe: nat)
    requires ReadsHeader(b, pe)
    ensures Parse(b) == Some(OneSection(pe))
  {
    hide U16, U32, HeaderOk, HeaderOf;
    HeaderParses(b, pe);
    var p := OneSection(pe);
    assert EndOf([SECTION]) == 4608 by { assert [SECTION][..0] == []; }
    assert Align(4608, 4096) == 8192;
    assert U32(b, p.opt + 56) == 8192;
  }

  lemma Maps(pe: nat, rva: nat, length: nat)
    requires 4096 <= rva && rva + length <= 4608
    ensures Backing([SECTION], rva, length) == Some(SECTION)
    ensures Offset(OneSection(pe), rva, length) == Some(rva - 3072)
  {
  }

  lemma Names(b: Bytes, pe: nat)
    requires ReadsHeader(b, pe)
    ensures StringAt(b, OneSection(pe), 4154) == Some(SYMBOL) && StringAt(b, OneSection(pe), 4172) == Some(SOURCE)
  {
    hide Offset, U32, HeaderWords;
    forall a: nat | 4096 <= a < 4608 ensures Offset(OneSection(pe), a, 1) == Some(a - 3072) {
      Maps(pe, a, 1);
    }
    StringIs(b, OneSection(pe), 4154, SYMBOL, STRING_LIMIT);
    StringIs(b, OneSection(pe), 4172, SOURCE, STRING_LIMIT);
  }

  lemma {:induction false} StringIs(b: Bytes, p: Pe, rva: nat, s: Bytes, left: nat)
    requires |s| < left && (forall i :: 0 <= i < |s| ==> 0 < s[i] < 128)
    requires forall a: nat :: rva <= a <= rva + |s| ==> Offset(p, a, 1) == Some(a - 3072)
    requires 3072 <= rva && rva + |s| - 3071 <= |b| && b[rva - 3072..rva + |s| - 3071] == s + [0]
    ensures StringFrom(b, p, rva, left) == Some(s)
    decreases |s|
  {
    hide Offset;
    assert b[rva - 3072] == (s + [0])[0];
    if s != [] {
      assert b[rva - 3071..rva + |s| - 3071] == b[rva - 3072..rva + |s| - 3071][1..] == s[1..] + [0];
      StringIs(b, p, rva + 1, s[1..], left - 1);
      assert [s[0]] + s[1..] == s;
    }
  }

  lemma OneEntry(b: Bytes, pe: nat)
    requires ReadsHeader(b, pe)
    ensures OneSection(pe).opt + 224 <= |b|
    ensures Entries(b, OneSection(pe), 4136, 4144, {}, MAX_IMPORTS) == Some(Parsed([Entry(4152, Some(SYMBOL), 4144)], {4144}))
  {
    hide Offset, U32, StringFrom;
    var p := OneSection(pe);
    Names(b, pe);
    Maps(pe, 4136, 4);
    Maps(pe, 4140, 4);
    Maps(pe, 4144, 4);
    Maps(pe, 4148, 4);
    Maps(pe, 4152, 2);
    assert IatOk(b, p, 4144) && IatOk(b, p, 4148);
    assert SymbolAt(b, p, 4152) == Some(Some(SYMBOL));
    assert Value32(b, p, 4136) == Some(4152) && Value32(b, p, 4140) == Some(0);
    assert {} + {4144} == {4144};
    assert Entries(b, p, 4140, 4148, {4144}, MAX_IMPORTS - 1) == Some(Parsed([], {4144}));
    assert [Entry(4152, Some(SYMBOL), 4144)] + [] == [Entry(4152, Some(SYMBOL), 4144)];
  }

  /** What a loader binds that reads such a header. */
  lemma Binds(b: Bytes, pe: nat)
    requires ReadsHeader(b, pe)
    ensures Parse(b) == Some(OneSection(pe)) && OneSection(pe).opt + 224 <= |b|
    ensures Imports(b, OneSection(pe)) == Some(IMPORTS)
  {
    hide Parse, Entries, U32, StringFrom, Offset;
    var p := OneSection(pe);
    Parses(b, pe);
    Names(b, pe);
    OneEntry(b, pe);
    Maps(pe, 4096, 40);
    assert Directory(b, p, 1) == (4096, 40);
    assert RawAt(b, 1024) == Raw(4136, 0, 0, 4172, 4144) && RawAt(b, 1044) == EMPTY;
    assert Descriptors(b, p, 1044, {4144}, 1) == Some([]);
    assert RawOk(RawAt(b, 1024)) && DllOk(SOURCE);
    assert IMPORTS + [] == IMPORTS;
    assert Descriptors(b, p, 1024, {}, 2) == Some(IMPORTS);
  }

  // ---- The image ----

  /** Words of a header, counted from its start. */
  function HeaderWord(r: nat): nat {
    match r
    case 0 => 0x4550
    case 1 => 0x1_014C
    case 5 => 224
    case 6 => 0x10B
    case 14 => 4096
    case 15 => 512
    case 20 => 8192
    case 21 => 1024
    case 23 => 2
    case 29 => 16
    case 32 => 4096
    case 33 => 40
    case 64 => 512
    case 65 => 4096
    case 66 => 512
    case 67 => 1024
    case 71 => 0x4000_0040
    case _ => 0
  }

  /** Words of the section; those from 14 on spell the names. */
  function SectionWord(r: nat): nat {
    match r
    case 0 => 4136
    case 3 => 4172
    case 4 => 4144
    case 10 => 4152
    case 12 => 4152
    case 14 => 0x6547_0000
    case 15 => 0x6369_5474
    case 16 => 0x756F_436B
    case 17 => 0x3436_746E
    case 19 => 0x4E52_454B
    case 20 => 0x3233_4C45
    case 21 => 0x4C4C_442E
    case _ => 0
  }

  /** "MZ", a header at 28 whose initialized-data size is the pointer itself, a second one at 540, and the section. */
  function ImageWord(i: nat): nat {
    if i == 0 then 77 + 256 * 90
    else if i == 15 then 28
    else if 7 <= i < 79 then HeaderWord(i - 7)
    else if 135 <= i < 207 then HeaderWord(i - 135)
    else if i >= 256 then SectionWord(i - 256)
    else 0
  }

  function Image(): (b: Bytes)
    ensures |b| == 1536
  {
    Words(seq(384, i requires 0 <= i < 384 => ImageWord(i)))
  }

  lemma WordOf(k: nat)
    requires k < 384
    ensures U32(Image(), 4 * k) == ImageWord(k)
  {
    hide Words, U32;
    PowValues();
    WordAt(seq(384, i requires 0 <= i < 384 => ImageWord(i)), k);
  }

  lemma HeaderAt(w: nat)
    requires w == 7 || w == 135
    ensures HeaderWords(Image(), 4 * w)
  {
    hide U32, Image;
    WordOf(w);
    WordOf(w + 1);
    WordOf(w + 5);
    WordOf(w + 6);
    WordOf(w + 14);
    WordOf(w + 15);
    WordOf(w + 20);
    WordOf(w + 21);
    WordOf(w + 29);
    WordOf(w + 32);
    WordOf(w + 33);
    WordOf(w + 54);
    WordOf(w + 55);
    WordOf(w + 64);
    WordOf(w + 65);
    WordOf(w + 66);
    WordOf(w + 67);
    WordOf(w + 71);
  }

  lemma SectionIn()
    ensures SectionWords(Image())
  {
    hide U32, Image;
    WordOf(256);
    WordOf(257);
    WordOf(258);
    WordOf(259);
    WordOf(260);
    WordOf(261);
    WordOf(262);
    WordOf(263);
    WordOf(264);
    WordOf(265);
    WordOf(266);
    WordOf(267);
    NamesIn();
  }

  lemma NamesIn()
    ensures Image()[1082..1097] == SYMBOL + [0] && Image()[1100..1113] == SOURCE + [0]
  {
    hide U32, Image;
    FourBytes(270, 0, 0, 71, 101);
    FourBytes(271, 116, 84, 105, 99);
    FourBytes(272, 107, 67, 111, 117);
    FourBytes(273, 110, 116, 54, 52);
    FourBytes(274, 0, 0, 0, 0);
    FourBytes(275, 75, 69, 82, 78);
    FourBytes(276, 69, 76, 51, 50);
    FourBytes(277, 46, 68, 76, 76);
    FourBytes(278, 0, 0, 0, 0);
  }

  lemma FourBytes(k: nat, b0: nat, b1: nat, b2: nat, b3: nat)
    requires k < 384 && b0 < 256 && b1 < 256 && b2 < 256 && b3 < 256
    requires ImageWord(k) == b0 + 256 * b1 + 65536 * b2 + 16777216 * b3
    ensures Image()[4 * k] as nat == b0 && Image()[4 * k + 1] as nat == b1
    ensures Image()[4 * k + 2] as nat == b2 && Image()[4 * k + 3] as nat == b3
  {
    hide U32, Image, ImageWord;
    WordOf(k);
    Bytes4(Image(), 4 * k);
    var c0, c1 := Image()[4 * k] as nat, Image()[4 * k + 1] as nat;
    var c2, c3 := Image()[4 * k + 2] as nat, Image()[4 * k + 3] as nat;
    SameDigit(c0, b0, c1 + 256 * (c2 + 256 * c3), b1 + 256 * (b2 + 256 * b3));
    SameDigit(c1, b1, c2 + 256 * c3, b2 + 256 * b3);
    SameDigit(c2, b2, c3, b3);
  }

  lemma SameDigit(a: nat, b: nat, x: nat, y: nat)
    requires a < 256 && b < 256 && a + 256 * x == b + 256 * y
    ensures a == b && x == y
  {
  }

  /** The checks before the imports: no exports, not signed, not managed, a GUI program, no flags. */
  lemma ImageSupported(plan: Plan)
    ensures OneSection(28).opt + 224 <= |Image()| && Supported(Image(), OneSection(28), plan)
    ensures forall k :: k in {0, 4, 9, 10, 13, 14} ==> Directory(Image(), OneSection(28), k) == (0, 0)
    ensures U16(Image(), OneSection(28).opt + 68) == 2 && U16(Image(), OneSection(28).opt + 70) == 0
  {
    hide U32, Image;
    WordOf(30);
    Halves(Image(), 120);
    ZeroDirectory(0);
    ZeroDirectory(4);
    ZeroDirectory(9);
    ZeroDirectory(10);
    ZeroDirectory(13);
    ZeroDirectory(14);
  }

  lemma ZeroDirectory(k: nat)
    requires k in {0, 4, 9, 10, 13, 14}
    ensures Directory(Image(), OneSection(28), k) == (0, 0)
  {
    hide U32, Image;
    WordOf(37 + 2 * k);
    WordOf(38 + 2 * k);
  }

  lemma ImageReads()
    ensures ReadsHeader(Image(), 28) && HeaderWords(Image(), 540)
  {
    hide U32, Image, HeaderWords, SectionWords;
    HeaderAt(7);
    HeaderAt(135);
    SectionIn();
    WordOf(0);
    WordOf(15);
    Bytes4(Image(), 0);
  }

  lemma Slack()
    ensures HasSlack(Image(), OneSection(28))
  {
    hide U32, Image;
    var b := Image();
    forall k | 316 <= k < 356 ensures b[k] == 0 {
      var q := k / 4;
      WordOf(q);
      Bytes4(b, 4 * q);
      assert k == 4 * q || k == 4 * q + 1 || k == 4 * q + 2 || k == 4 * q + 3;
    }
  }

  // ---- Its preparation ----

  /** The shipped routes, whatever other symbols they serve. */
  function Routes(symbols: set<Bytes>): Plan { Plan(SOURCE, PROVIDER, symbols) }

  const BOUND := Binding(SOURCE, 4152, Some(SYMBOL), 4144)

  const CELL := Cell(PROVIDER, 4152, 4144)

  const GROUP := Group(PROVIDER, 4144, [4152])

  lemma Bindings(symbols: set<Bytes>)
    requires SYMBOL in symbols
    ensures Flatten(IMPORTS) == [BOUND] && Redirects(Routes(symbols), [BOUND])
    ensures RerouteAll(Routes(symbols), [BOUND]) == [BOUND.(dll := PROVIDER)]
    ensures CellsOf(RerouteAll(Routes(symbols), [BOUND])) == [CELL] && GroupsOf([CELL]) == [GROUP]
  {
    assert IMPORTS[0].entries[1..] == [] && IMPORTS[1..] == [];
    assert BindAll(SOURCE, IMPORTS[0].entries) == [BOUND];
    assert Flatten(IMPORTS[1..]) == [];
    assert UpperAll(SOURCE) == SOURCE;
    assert Migrates(Routes(symbols), [BOUND][0].dll, [BOUND][0].symbol);
    assert [CELL][..0] == [] && GroupsOf([]) == [];
  }

  lemma PayloadSize(rva: nat)
    ensures |PayloadOf([GROUP], rva).bytes| == 60
  {
    hide Words, DescriptorWords, LookupWords;
    var gs := [GROUP];
    var base := HeaderSize(gs);
    var st := TableOf(gs, rva + base);
    assert StringsOf(gs, rva + base, 0) == Strings(map[], []);
    assert |st.bytes| == 10;
    assert |Padding(50)| == 2;
    assert LookupSize(gs, 0) == 0 && LookupSize(gs, 1) == 8;
  }

  const NEW := Layout(8192, 1536, 512, 12288)

  lemma EndOfSection()
    ensures EndOf([SECTION]) == 4608
  {
    assert [SECTION][..0] == [];
  }

  lemma AlignIs(value: nat, alignment: nat, k: nat)
    requires alignment > 0 && (k - 1) * alignment < value <= k * alignment
    ensures Align(value, alignment) == k * alignment
  {
    var n := value + alignment - 1;
    var q := n / alignment;
    assert n == q * alignment + n % alignment;
    assert (k - 1) * alignment == k * alignment - alignment && (k + 1) * alignment == k * alignment + alignment;
    if q < k {
      Times(q, k - 1, alignment);
    }
    if q > k {
      Times(k + 1, q, alignment);
    }
  }

  lemma NewLayout()
    ensures Align(EndOf([SECTION]), 4096) == 8192
    ensures LayoutFor(Image(), OneSection(28), 60) == NEW && LayoutOk(OneSection(28), 1536, 60, NEW)
  {
    hide Image, Align, EndOf;
    EndOfSection();
    AlignIs(EndOf([SECTION]), 4096, 2);
    AlignIs(|Image()|, 512, 3);
    AlignIs(60, 512, 1);
    AlignIs(8192 + 60, 4096, 3);
  }

  function Output(): Bytes
    requires CanAssemble(Image(), OneSection(28), PayloadOf([GROUP], 8192), NEW)
  {
    Assembled(Image(), OneSection(28), [CELL], [GROUP], PayloadOf([GROUP], 8192), NEW)
  }

  lemma CellReady()
    ensures CellsReady(Image(), OneSection(28), [CELL])
  {
    hide Image, Parse, Backing, ReadsHeader, CellsReady, HeaderWords;
    ImageReads();
    Parses(Image(), 28);
    Maps(28, 4144, 4);
    OnlyCell(Image(), OneSection(28));
  }

  lemma OnlyCell(b: Bytes, p: Pe)
    requires Parse(b) == Some(p) && Backing(p.sections, 4144, 4).Some?
    ensures CellsReady(b, p, [CELL])
  {
    hide Parse, Backing;
  }

  lemma GroupReady()
    ensures GroupsOk([GROUP])
  {
    assert GroupOk(GROUP);
  }

  lemma OutputIs()
    ensures var b, p, pl := Image(), OneSection(28), PayloadOf([GROUP], 8192);
      && CanAssemble(b, p, pl, NEW) && Accepted(b, p, [CELL], [GROUP], pl, NEW, Output())
  {
    hide Image, Parse, Assembled, PayloadOf, PayloadIs, CanAssemble, HasSlack, LayoutOk, CellsReady, GroupsOk, Accepted;
    CellReady();
    GroupReady();
    Slack();
    NewLayout();
    PayloadSize(8192);
    PayloadOfIs([GROUP], 8192);
    AssembledIs(Image(), OneSection(28), [CELL], [GROUP], PayloadOf([GROUP], 8192), NEW);
  }

  /** Where the output still is the input. */
  lemma Kept(k: nat)
    requires 356 <= k < 1072 || 1076 <= k < 1536 || k < 2
    ensures CanAssemble(Image(), OneSection(28), PayloadOf([GROUP], 8192), NEW)
    ensures |Output()| == 2048 && Output()[k] == Image()[k]
  {
    hide Image, Output, Parse, PayloadOf, PayloadIs, CanAssemble, HasSlack, LayoutOk, Offset;
    OutputIs();
    Maps(28, 4144, 4);
    assert !InHeaderFields(OneSection(28), k);
    assert !InCells(OneSection(28), [CELL], k);
  }

  lemma OutputPointer()
    ensures CanAssemble(Image(), OneSection(28), PayloadOf([GROUP], 8192), NEW)
    ensures |Output()| >= 64 && U32(Output(), 60) == 540
  {
    hide Image, Output, Parse, PayloadOf, CanAssemble, Accepted, U32;
    OutputIs();
    InitializedRead(Image(), OneSection(28), [CELL], [GROUP], PayloadOf([GROUP], 8192), NEW, Output());
    WordOf(15);
    ReadBack(Output(), 60, 540);
  }

  lemma ReadBack(b: Bytes, at: nat, v: nat)
    requires at + 4 <= |b| && b[at..at + 4] == LE(v, 4) && v <= LIMIT32
    ensures U32(b, at) == v
  {
    PowValues();
    UnLEOfLE(v, 4);
  }

  /** The output is read through the second header, which still names the old library. */
  lemma OutputReads()
    ensures CanAssemble(Image(), OneSection(28), PayloadOf([GROUP], 8192), NEW)
    ensures ReadsHeader(Output(), 540)
  {
    hide Image, Output, CanAssemble, U32, PayloadOf;
    ImageReads();
    OutputPointer();
    var b, out := Image(), Output();
    Kept(0);
    Kept(1);
    forall at: nat | (356 <= at && at + 4 <= 1072) || (1076 <= at && at + 4 <= 1536) ensures U32(out, at) == U32(b, at) {
      Kept(at);
      Kept(at + 1);
      Kept(at + 2);
      Kept(at + 3);
      Same32(b, out, at);
    }
    forall k: nat | 1082 <= k < 1113 ensures out[k] == b[k] {
      Kept(k);
    }
    assert out[1082..1097] == b[1082..1097] && out[1100..1113] == b[1100..1113];
  }

  lemma NamesOutside()
    ensures NamesUntouched(OneSection(28), [BOUND], [CELL])
  {
    forall a: nat | 4154 <= a <= 4168
      ensures Offset(OneSection(28), a, 1).Some? ==> !Rewritten(OneSection(28), [CELL], Offset(OneSection(28), a, 1).value)
    {
      Maps(28, a, 1);
      Maps(28, 4144, 4);
    }
  }

  /**
   The image is accepted under the shipped routes and its names lie outside the rewritten bytes,
   but the pointer moves to the second header and the loader goes on binding the import from the
   old library. There are no TLS, load-configuration and delay-import directories to check.
   */
  lemma SecondHeaderWins(symbols: set<Bytes>)
    requires SYMBOL in symbols
    ensures Readable(Routes(symbols).provider) && Prepared(Image(), Routes(symbols)).Some? && Parse(Image()) == Some(OneSection(28))
    ensures NamesUntouched(OneSection(28), [BOUND], [CELL]) && !PointerLives(Image(), OneSection(28), Routes(symbols), [BOUND])
    ensures OneSection(28).opt + 224 <= |Image()| && Supported(Image(), OneSection(28), Routes(symbols))
    ensures forall k :: k in {9, 10, 13} ==> Directory(Image(), OneSection(28), k) == (0, 0)
    ensures U16(Image(), OneSection(28).opt + 68) == 2 && U16(Image(), OneSection(28).opt + 70) == 0
    ensures Imports(Image(), OneSection(28)) == Some(IMPORTS) && Flatten(IMPORTS) == [BOUND]
    ensures !BindsSame(Routes(symbols), [BOUND], Prepared(Image(), Routes(symbols)).value)
  {
    hide Image, Output, Parse, Imports, CanAssemble, Flatten, RerouteAll, NamesUntouched, PointerLives, Preserved, Redirects, CellsOf,
      BindsSame, Prepared, ReadsHeader, Supported, U16, Directory;
    var b, p := Image(), OneSection(28);
    ImageSupported(Routes(symbols));
    ImageReads();
    Binds(b, 28);
    Bindings(symbols);
    PreparedIs(symbols);
    OutputReads();
    NamesOutside();
    ProviderReadable();
    PreparedPreserves(b, Routes(symbols));
    StillOld(Output(), symbols);
    Consequence(b, p, Routes(symbols), [BOUND], [CELL], Output());
  }

  lemma ProviderReadable()
    ensures Readable(PROVIDER)
  {
  }

  lemma StillOld(out: Bytes, symbols: set<Bytes>)
    requires SYMBOL in symbols && ReadsHeader(out, 540)
    ensures !BindsSame(Routes(symbols), [BOUND], out)
  {
    hide Parse, Imports, Flatten, RerouteAll, ReadsHeader;
    Binds(out, 540);
    Bindings(symbols);
  }

  lemma PreparedIs(symbols: set<Bytes>)
    requires SYMBOL in symbols
    ensures CanAssemble(Image(), OneSection(28), PayloadOf([GROUP], 8192), NEW)
    ensures Prepared(Image(), Routes(symbols)) == Some(Output())
  {
    hide Image, Parse, Imports, CanAssemble, HasSlack, LayoutOk, PayloadOf, Flatten, RerouteAll, Redirects, CellsOf, GroupsOf, Assembled,
      LayoutFor, Align, EndOf, U32, ReadsHeader, Supported;
    var b, p := Image(), OneSection(28);
    ImageSupported(Routes(symbols));
    ImageReads();
    Binds(b, 28);
    Bindings(symbols);
    Slack();
    NewLayout();
    PayloadSize(8192);
    assert PayloadFor(p, Routes(symbols), [BOUND]) == PayloadOf([GROUP], 8192);
    assert U32(b, 60) == 28 by { WordOf(15); }
    OutputReads();
    Binds(Output(), 540);
  }

  lemma Consequence(b: Bytes, p: Pe, plan: Plan, xs: seq<Binding>, cells: seq<Cell>, out: Bytes)
    requires Parse(b) == Some(p) && p.opt + 224 <= |b| && Imports(b, p).Some? && Preserved(b, p, plan, out)
    requires xs == Flatten(Imports(b, p).value) && cells == CellsOf(RerouteAll(plan, xs))
    requires NamesUntouched(p, xs, cells) && !BindsSame(plan, xs, out)
    ensures !PointerLives(b, p, plan, xs)
  {
    hide Parse, Imports, Flatten, NamesUntouched, BindsSame, PointerLives;
  }
}
