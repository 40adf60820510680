/**
 Grouping imports by their new library, and the import section built from the groups.
 */
module PeRoute {
  import opened Options
  import opened ByteStrings
  import opened PeFormat

  /** Which symbols of which library are served by the provider instead. */
  datatype Plan = Plan(source: Bytes, provider: Bytes, supported: set<Bytes>)

  function Upper(c: Byte): Byte { if 97 <= c <= 122 then c - 32 else c }

  function UpperAll(s: Bytes): Bytes { seq(|s|, i requires 0 <= i < |s| => Upper(s[i])) }

  predicate Migrates(plan: Plan, dll: Bytes, symbol: Option<Bytes>) {
    UpperAll(dll) == plan.source && symbol.Some? && symbol.value in plan.supported
  }

  /** The only change an import undergoes. */
  function Rerouted(plan: Plan, b: Binding): Binding {
    if Migrates(plan, b.dll, b.symbol) then b.(dll := plan.provider) else b
  }

  function RerouteAll(plan: Plan, bs: seq<Binding>): (r: seq<Binding>)
    ensures |r| == |bs| && forall i :: 0 <= i < |bs| ==> r[i] == Rerouted(plan, bs[i])
  {
    seq(|bs|, i requires 0 <= i < |bs| => Rerouted(plan, bs[i]))
  }

  // ---- Groups ----

  /** A run of adjacent address-table cells bound to one library. */
  datatype Group = Group(dll: Bytes, iat: nat, values: seq<nat>)
  {
    function End(): nat { iat + 4 * |values| }
  }

  /** A cell without its name. */
  datatype Cell = Cell(dll: Bytes, value: nat, iat: nat)

  function CellOf(b: Binding): Cell { Cell(b.dll, b.value, b.iat) }

  function CellsOf(bs: seq<Binding>): (r: seq<Cell>)
    ensures |r| == |bs| && forall i :: 0 <= i < |bs| ==> r[i] == CellOf(bs[i])
  {
    seq(|bs|, i requires 0 <= i < |bs| => CellOf(bs[i]))
  }

  function GroupCells(g: Group): (r: seq<Cell>)
    ensures |r| == |g.values| && forall k :: 0 <= k < |r| ==> r[k] == Cell(g.dll, g.values[k], g.iat + 4 * k)
  {
    seq(|g.values|, k requires 0 <= k < |g.values| => Cell(g.dll, g.values[k], g.iat + 4 * k))
  }

  function AllCells(gs: seq<Group>): seq<Cell> {
    if gs == [] then [] else AllCells(gs[..|gs| - 1]) + GroupCells(gs[|gs| - 1])
  }

  /** Extends the last group if the cell continues it, else starts a new one. */
  function AddCell(gs: seq<Group>, c: Cell): seq<Group> {
    if gs != [] && gs[|gs| - 1].dll == c.dll && gs[|gs| - 1].End() == c.iat
    then gs[|gs| - 1 := gs[|gs| - 1].(values := gs[|gs| - 1].values + [c.value])]
    else gs + [Group(c.dll, c.iat, [c.value])]
  }

  lemma AddCellAppends(gs: seq<Group>, c: Cell)
    ensures AllCells(AddCell(gs, c)) == AllCells(gs) + [c]
  {
    var r := AddCell(gs, c);
    if gs != [] && gs[|gs| - 1].dll == c.dll && gs[|gs| - 1].End() == c.iat {
      var last := gs[|gs| - 1];
      assert r[..|r| - 1] == gs[..|gs| - 1];
      assert GroupCells(r[|r| - 1]) == GroupCells(last) + [c];
    } else {
      assert r[..|r| - 1] == gs;
      assert GroupCells(r[|r| - 1]) == [c];
    }
  }

  /** A string the reader can read back: ASCII, no NUL, short enough. */
  predicate Readable(s: Bytes) {
    |s| < STRING_LIMIT && forall i :: 0 <= i < |s| ==> 0 < s[i] < 128
  }

  ghost predicate CellOk(c: Cell) { 0 < c.value <= LIMIT32 && c.iat <= LIMIT32 && Readable(c.dll) }

  ghost predicate GroupOk(g: Group) {
    && g.values != [] && g.iat <= LIMIT32 && Readable(g.dll)
    && forall k :: 0 <= k < |g.values| ==> 0 < g.values[k] <= LIMIT32
  }

  ghost predicate GroupsOk(gs: seq<Group>) { forall i :: 0 <= i < |gs| ==> GroupOk(gs[i]) }

  lemma AddCellOk(gs: seq<Group>, c: Cell)
    requires GroupsOk(gs) && CellOk(c)
    ensures GroupsOk(AddCell(gs, c))
  {
    hide Readable;
    var r := AddCell(gs, c);
    forall i | 0 <= i < |r| ensures GroupOk(r[i]) {
      if i < |gs| {
        assert GroupOk(gs[i]);
      }
    }
  }

  function GroupsOf(cells: seq<Cell>): seq<Group> {
    if cells == [] then [] else AddCell(GroupsOf(cells[..|cells| - 1]), cells[|cells| - 1])
  }

  /** Flattening the groups gives the cells back, in order. */
  lemma {:induction false} GroupsOfIs(cells: seq<Cell>)
    requires forall i :: 0 <= i < |cells| ==> CellOk(cells[i])
    ensures AllCells(GroupsOf(cells)) == cells && GroupsOk(GroupsOf(cells))
  {
    hide AddCell, AllCells, GroupOk, CellOk;
    if cells == [] {
      NoCells();
    } else {
      var n := |cells| - 1;
      GroupsOfIs(cells[..n]);
      AddCellAppends(GroupsOf(cells[..n]), cells[n]);
      AddCellOk(GroupsOf(cells[..n]), cells[n]);
      assert cells == cells[..n] + [cells[n]];
    }
  }

  /** The grouping loop. */
  method GroupAll(cells: seq<Cell>) returns (gs: seq<Group>)
    ensures gs == GroupsOf(cells)
  {
    hide AddCell;
    gs := [];
    for k := 0 to |cells|
      invariant gs == GroupsOf(cells[..k])
    {
      assert cells[..k + 1] == cells[..k] + [cells[k]] && cells[..k + 1][..k] == cells[..k];
      gs := AddCell(gs, cells[k]);
    }
    assert cells[..|cells|] == cells;
  }

  lemma NoCells()
    ensures AllCells([]) == []
  {
  }

  // ---- The string table ----

  datatype Strings = Strings(at: map<Bytes, nat>, bytes: Bytes)

  function AddString(st: Strings, base: nat, s: Bytes): Strings {
    if s in st.at then st else Strings(st.at[s := base + |st.bytes|], st.bytes + s + [0])
  }

  /** Every string is in the table, terminated, where its address says. */
  ghost predicate Tabled(st: Strings, base: nat) {
    forall s :: s in st.at ==> StoredAt(st, base, s)
  }

  ghost predicate StoredAt(st: Strings, base: nat, s: Bytes)
    requires s in st.at
  {
    var k := st.at[s] - base;
    0 <= k && k + |s| + 1 <= |st.bytes| && st.bytes[k..k + |s|] == s && st.bytes[k + |s|] == 0
  }

  lemma LatestString(st: Strings, base: nat, s: Bytes)
    requires s !in st.at
    ensures StoredAt(AddString(st, base, s), base, s)
  {
    var r := AddString(st, base, s);
    assert r.bytes[|st.bytes|..|st.bytes| + |s|] == s;
  }

  lemma EarlierString(st: Strings, base: nat, s: Bytes, t: Bytes)
    requires s !in st.at && t in st.at && StoredAt(st, base, t)
    ensures StoredAt(AddString(st, base, s), base, t)
  {
    var r, k := AddString(st, base, s), st.at[t] - base;
    assert r.bytes == st.bytes + (s + [0]);
    assert r.bytes[k..k + |t|] == st.bytes[k..k + |t|];
  }

  lemma AddStringKeeps(st: Strings, base: nat, s: Bytes)
    requires Tabled(st, base)
    ensures Tabled(AddString(st, base, s), base) && s in AddString(st, base, s).at
  {
    hide StoredAt;
    var r := AddString(st, base, s);
    if s !in st.at {
      LatestString(st, base, s);
      forall t | t in st.at ensures StoredAt(r, base, t) {
        assert StoredAt(st, base, t);
        EarlierString(st, base, s, t);
      }
    }
  }

  function StringsOf(gs: seq<Group>, base: nat, n: nat): Strings
    requires n <= |gs|
  {
    if n == 0 then Strings(map[], []) else AddString(StringsOf(gs, base, n - 1), base, gs[n - 1].dll)
  }

  lemma {:induction false} StringsTabled(gs: seq<Group>, base: nat, n: nat)
    requires n <= |gs|
    ensures Tabled(StringsOf(gs, base, n), base) && AllNamed(gs, StringsOf(gs, base, n), n)
  {
    hide Tabled;
    if n == 0 {
      NothingTabled(base);
    } else {
      StringsTabled(gs, base, n - 1);
      AddStringKeeps(StringsOf(gs, base, n - 1), base, gs[n - 1].dll);
    }
  }

  lemma NothingTabled(base: nat)
    ensures Tabled(Strings(map[], []), base)
  {
  }

  method StringTable(gs: seq<Group>, base: nat) returns (st: Strings)
    ensures st == StringsOf(gs, base, |gs|)
  {
    hide AddString;
    st := Strings(map[], []);
    for i := 0 to |gs|
      invariant st == StringsOf(gs, base, i)
    {
      st := AddString(st, base, gs[i].dll);
    }
  }

  // ---- Lookup tables and descriptors ----

  function Words(vs: seq<nat>): (r: Bytes)
    ensures |r| == 4 * |vs|
  {
    if vs == [] then [] else Words(vs[..|vs| - 1]) + LE(vs[|vs| - 1], 4)
  }

  lemma LastWord(front: Bytes, v: nat)
    requires v < Pow256(4)
    ensures U32(front + LE(v, 4), |front|) == v
  {
    var b := front + LE(v, 4);
    assert b[|front|..|front| + 4] == LE(v, 4);
    UnLEOfLE(v, 4);
  }

  lemma EarlierWord(front: Bytes, rest: Bytes, at: nat)
    requires at + 4 <= |front|
    ensures U32(front + rest, at) == U32(front, at)
  {
    assert (front + rest)[at..at + 4] == front[at..at + 4];
  }

  lemma {:induction false} WordAt(vs: seq<nat>, k: nat)
    requires k < |vs| && vs[k] < Pow256(4)
    ensures U32(Words(vs), 4 * k) == vs[k]
  {
    hide U32, LE;
    var init := vs[..|vs| - 1];
    if k == |vs| - 1 {
      LastWord(Words(init), vs[k]);
    } else {
      WordAt(init, k);
      EarlierWord(Words(init), LE(vs[|vs| - 1], 4), 4 * k);
    }
  }

  function LookupSize(gs: seq<Group>, i: nat): nat
    requires i <= |gs|
  {
    if i == 0 then 0 else LookupSize(gs, i - 1) + 4 * (|gs[i - 1].values| + 1)
  }

  /** All lookup values in order, each group followed by a zero. */
  function LookupWords(gs: seq<Group>, i: nat): (r: seq<nat>)
    requires i <= |gs|
    ensures 4 * |r| == LookupSize(gs, i)
  {
    if i == 0 then [] else LookupWords(gs, i - 1) + (gs[i - 1].values + [0])
  }

  lemma {:induction false} LookupWordAt(gs: seq<Group>, n: nat, i: nat, k: nat)
    requires i < n <= |gs| && k <= |gs[i].values|
    ensures LookupSize(gs, i) % 4 == 0 && LookupSize(gs, i) / 4 + k < |LookupWords(gs, n)|
    ensures LookupWords(gs, n)[LookupSize(gs, i) / 4 + k] == if k < |gs[i].values| then gs[i].values[k] else 0
  {
    var front := LookupWords(gs, n - 1);
    var start := |LookupWords(gs, i)|;
    assert LookupSize(gs, i) == 4 * start && LookupSize(gs, i) / 4 == start;
    if i == n - 1 {
      assert LookupWords(gs, n)[start + k] == (gs[i].values + [0])[k];
    } else {
      LookupWordAt(gs, n - 1, i, k);
      assert LookupWords(gs, n)[start + k] == front[start + k];
    }
  }

  function DescriptorWords(gs: seq<Group>, lookups: nat, names: map<Bytes, nat>, i: nat): (r: seq<nat>)
    requires i <= |gs| && forall k :: 0 <= k < |gs| ==> gs[k].dll in names
    ensures |r| == 5 * i
  {
    if i == 0 then []
    else DescriptorWords(gs, lookups, names, i - 1)
         + [lookups + LookupSize(gs, i - 1), 0, 0, names[gs[i - 1].dll], gs[i - 1].iat]
  }

  lemma {:induction false} DescriptorWordAt(gs: seq<Group>, lookups: nat, names: map<Bytes, nat>, n: nat, i: nat)
    requires i < n <= |gs| && forall k :: 0 <= k < |gs| ==> gs[k].dll in names
    ensures var w := DescriptorWords(gs, lookups, names, n);
      && w[5 * i] == lookups + LookupSize(gs, i) && w[5 * i + 1] == 0 && w[5 * i + 2] == 0
      && w[5 * i + 3] == names[gs[i].dll] && w[5 * i + 4] == gs[i].iat
  {
    if i < n - 1 {
      DescriptorWordAt(gs, lookups, names, n - 1, i);
    }
  }

  // ---- The section payload ----

  datatype Payload = Payload(bytes: Bytes, names: map<Bytes, nat>, strings: Bytes, lookups: nat)

  function HeaderSize(gs: seq<Group>): nat { 20 * (|gs| + 1) }

  /** Descriptors with a zero terminator, then the strings, padding, and the lookup tables. */
  ghost predicate PayloadIs(gs: seq<Group>, rva: nat, p: Payload) {
    && (forall i :: 0 <= i < |gs| ==> gs[i].dll in p.names)
    && Tabled(Strings(p.names, p.strings), rva + HeaderSize(gs))
    && p.lookups >= HeaderSize(gs) + |p.strings| && p.lookups % 4 == 0
    && exists pad: Bytes ::
         && HeaderSize(gs) + |p.strings| + |pad| == p.lookups
         && p.bytes == Words(DescriptorWords(gs, rva + p.lookups, p.names, |gs|) + [0, 0, 0, 0, 0]) + p.strings + pad
                       + Words(LookupWords(gs, |gs|))
  }

  function Padding(size: nat): (r: Bytes)
    ensures (size + |r|) % 4 == 0 && |r| < 4
  {
    Zeros((4 - size % 4) % 4)
  }

  method PadTo4(size: nat) returns (pad: Bytes)
    ensures pad == Padding(size)
  {
    pad := [];
    while (size + |pad|) % 4 != 0
      invariant |pad| <= (4 - size % 4) % 4 && pad == Zeros(|pad|)
      decreases 4 - |pad|
    {
      pad := pad + [0];
    }
  }

  ghost predicate AllNamed(gs: seq<Group>, st: Strings, n: nat)
    requires n <= |gs|
  {
    forall i :: 0 <= i < n ==> gs[i].dll in st.at
  }

  function PayloadFrom(gs: seq<Group>, rva: nat, st: Strings, pad: Bytes): Payload
    requires AllNamed(gs, st, |gs|)
  {
    var lookups := HeaderSize(gs) + |st.bytes| + |pad|;
    var head := Words(DescriptorWords(gs, rva + lookups, st.at, |gs|) + [0, 0, 0, 0, 0]);
    Payload(head + st.bytes + pad + Words(LookupWords(gs, |gs|)), st.at, st.bytes, lookups)
  }

  function TableOf(gs: seq<Group>, base: nat): (st: Strings)
    ensures AllNamed(gs, st, |gs|)
  {
    StringsTabled(gs, base, |gs|);
    StringsOf(gs, base, |gs|)
  }

  function PayloadOf(gs: seq<Group>, rva: nat): Payload {
    var base := HeaderSize(gs);
    var st := TableOf(gs, rva + base);
    PayloadFrom(gs, rva, st, Padding(base + |st.bytes|))
  }

  /** The payload holds the descriptors, the names and the lookup tables where the descriptors say. */
  lemma PayloadOfIs(gs: seq<Group>, rva: nat)
    ensures PayloadIs(gs, rva, PayloadOf(gs, rva))
  {
    hide Words, Tabled, DescriptorWords, LookupWords, StringsOf, Padding;
    var base := HeaderSize(gs);
    var st := TableOf(gs, rva + base);
    StringsTabled(gs, rva + base, |gs|);
    var p := PayloadOf(gs, rva);
    assert Strings(p.names, p.strings) == st;
    var pad := Padding(base + |st.bytes|);
    assert base + |p.strings| + |pad| == p.lookups;
  }

  method BuildPayload(gs: seq<Group>, rva: nat) returns (p: Payload)
    ensures p == PayloadOf(gs, rva)
  {
    hide StringsOf, Padding, PayloadFrom, HeaderSize;
    var base := HeaderSize(gs);
    var st := StringTable(gs, rva + base);
    var pad := PadTo4(base + |st.bytes|);
    StringsTabled(gs, rva + base, |gs|);
    p := PayloadFrom(gs, rva, st, pad);
  }
}
