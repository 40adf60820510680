/**
 The directory payload: a header, then one record per entry in strictly increasing
 byte order of name. Names are their raw UTF-8 byte strings.
 */
module ShizukuDirectory {
  import opened Options
  import opened ByteStrings
  import opened ShizukuFormat

  const DIRECTORY_FIELDS: seq<nat> := [4, 4]
  const ENTRY_FIELDS: seq<nat> := [4, 1, 1, 2]
  const MAX_ENTRIES := 254

  type Name = seq<Byte>

  datatype Entry = Entry(name: Name, inode: nat, kind: nat)

  datatype EncodeResult = Encoded(bytes: seq<Byte>) | InvalidName | TooManyEntries | InvalidEntry

  /** Canonical component: 1..255 bytes, not "." or "..", no "/" and no NUL. */
  predicate ValidName(n: Name) {
    && 1 <= |n| <= 255 && n != [46] && n != [46, 46]
    && forall i :: 0 <= i < |n| ==> n[i] != 47 && n[i] != 0
  }

  predicate ValidKind(k: nat) { k == KIND_FILE || k == KIND_DIRECTORY }

  /** Strict lexicographic byte order, as Python compares `bytes`. */
  predicate Less(a: Name, b: Name) {
    if b == [] then false
    else if a == [] then true
    else if a[0] != b[0] then a[0] < b[0]
    else Less(a[1..], b[1..])
  }

  lemma {:induction false} LessTransitive(a: Name, b: Name, c: Name)
    requires Less(a, b) && Less(b, c)
    ensures Less(a, c)
  {
    if a != [] && a[0] == b[0] == c[0] {
      LessTransitive(a[1..], b[1..], c[1..]);
    }
  }

  lemma {:induction false} LessIrreflexive(a: Name)
    ensures !Less(a, a)
  {
    if a != [] {
      LessIrreflexive(a[1..]);
    }
  }

  lemma {:induction false} LessTotal(a: Name, b: Name)
    ensures Less(a, b) || Less(b, a) || a == b
  {
    if a != [] && b != [] && a[0] == b[0] {
      LessTotal(a[1..], b[1..]);
      assert a == [a[0]] + a[1..] && b == [b[0]] + b[1..];
    }
  }

  predicate ValidEntry(e: Entry) {
    ValidName(e.name) && ValidKind(e.kind) && e.inode < 0x1_0000_0000
  }

  predicate After(prev: Option<Name>, es: seq<Entry>) {
    prev.Some? && es != [] ==> Less(prev.value, es[0].name)
  }

  predicate StrictlySorted(es: seq<Entry>) {
    es != [] ==> After(Some(es[0].name), es[1..]) && StrictlySorted(es[1..])
  }

  predicate AllValid(es: seq<Entry>) {
    forall i :: 0 <= i < |es| ==> ValidEntry(es[i])
  }

  lemma {:induction false} SortedHeadBelow(es: seq<Entry>, j: nat)
    requires StrictlySorted(es) && 0 < j < |es|
    ensures Less(es[0].name, es[j].name)
  {
    if j > 1 {
      SortedHeadBelow(es[1..], j - 1);
      LessTransitive(es[0].name, es[1].name, es[j].name);
    }
  }

  /** A strictly sorted directory never repeats a name. */
  lemma {:induction false} SortedNamesDistinct(es: seq<Entry>, i: nat, j: nat)
    requires StrictlySorted(es) && i < |es| && j < |es| && es[i].name == es[j].name
    ensures i == j
  {
    if i > 0 && j > 0 {
      SortedNamesDistinct(es[1..], i - 1, j - 1);
    } else if i != j {
      SortedHeadBelow(es, i + j);
      LessIrreflexive(es[i].name);
    }
  }

  // ---- Encoding ----

  function PadOf(n: nat): nat { (4 - n % 4) % 4 }

  lemma FieldWidths()
    ensures Width(DIRECTORY_FIELDS) == 8 && Width(ENTRY_FIELDS) == 8
  {
  }

  function EntryHeader(e: Entry): (r: seq<Byte>)
    ensures |r| == 8
  {
    FieldWidths();
    Pack(ENTRY_FIELDS, [e.inode, e.kind, |e.name|, 0])
  }

  function EntryBytes(e: Entry): seq<Byte> {
    EntryHeader(e) + e.name + Zeros(PadOf(|e.name|))
  }

  function Records(es: seq<Entry>): seq<Byte> {
    if es == [] then [] else EntryBytes(es[0]) + Records(es[1..])
  }

  function DirHeader(count: nat): (r: seq<Byte>)
    ensures |r| == 8
  {
    FieldWidths();
    Pack(DIRECTORY_FIELDS, [MAGIC_DIRECTORY, count])
  }

  function Insert(e: Entry, es: seq<Entry>): seq<Entry> {
    if es == [] || Less(e.name, es[0].name) then [e] + es
    else [es[0]] + Insert(e, es[1..])
  }

  /** Stable sort by name. */
  function Sort(es: seq<Entry>): seq<Entry> {
    if es == [] then [] else Insert(es[|es| - 1], Sort(es[..|es| - 1]))
  }

  function Encode(es: seq<Entry>): EncodeResult {
    var ordered := Sort(es);
    if exists i :: 0 <= i < |es| && !ValidName(es[i].name) then InvalidName
    else if |ordered| > MAX_ENTRIES then TooManyEntries
    else if !StrictlySorted(ordered) || !AllValid(ordered) then InvalidEntry
    else Encoded(DirHeader(|ordered|) + Records(ordered))
  }

  lemma {:induction false} InsertKeepsAll(e: Entry, es: seq<Entry>)
    ensures multiset(Insert(e, es)) == multiset(es) + multiset{e}
  {
    if es == [] || Less(e.name, es[0].name) {
    } else {
      InsertKeepsAll(e, es[1..]);
      assert es == [es[0]] + es[1..];
    }
  }

  lemma {:induction false} SortKeepsAll(es: seq<Entry>)
    ensures multiset(Sort(es)) == multiset(es)
    ensures |Sort(es)| == |es|
    ensures forall e :: e in Sort(es) <==> e in es
  {
    if es != [] {
      var n := |es| - 1;
      SortKeepsAll(es[..n]);
      InsertKeepsAll(es[n], Sort(es[..n]));
      assert es == es[..n] + [es[n]];
    }
    assert |multiset(Sort(es))| == |Sort(es)| && |multiset(es)| == |es|;
    assert forall e :: e in Sort(es) <==> e in multiset(Sort(es));
  }

  lemma {:induction false} SortedPrefix(es: seq<Entry>, n: nat)
    requires StrictlySorted(es) && n <= |es|
    ensures StrictlySorted(es[..n])
  {
    if n > 0 {
      SortedPrefix(es[1..], n - 1);
      assert es[..n][1..] == es[1..][..n - 1];
    }
  }

  lemma {:induction false} InsertAtEnd(e: Entry, es: seq<Entry>)
    requires forall i :: 0 <= i < |es| ==> !Less(e.name, es[i].name)
    ensures Insert(e, es) == es + [e]
  {
    if es != [] {
      InsertAtEnd(e, es[1..]);
      assert es == [es[0]] + es[1..];
    }
  }

  lemma {:induction false} SortedOrder(es: seq<Entry>, i: nat, j: nat)
    requires StrictlySorted(es) && i < j < |es|
    ensures !Less(es[j].name, es[i].name)
  {
    if i == 0 {
      SortedHeadBelow(es, j);
      if Less(es[j].name, es[0].name) {
        LessTransitive(es[0].name, es[j].name, es[0].name);
        LessIrreflexive(es[0].name);
      }
    } else {
      SortedOrder(es[1..], i - 1, j - 1);
    }
  }

  lemma {:induction false} SortOfSorted(es: seq<Entry>)
    requires StrictlySorted(es)
    ensures Sort(es) == es
  {
    if es != [] {
      var n := |es| - 1;
      SortedPrefix(es, n);
      SortOfSorted(es[..n]);
      forall i | 0 <= i < n ensures !Less(es[n].name, es[..n][i].name) {
        SortedOrder(es, i, n);
      }
      InsertAtEnd(es[n], es[..n]);
      assert es == es[..n] + [es[n]];
    }
  }

  // ---- Decoding ----

  datatype Record = Record(entry: Entry, length: nat)

  /** One directory record at the front of `s`, which must follow the name `prev`. */
  function ParseRecord(s: seq<Byte>, prev: Option<Name>): (r: Option<Record>)
    ensures r.Some? ==> r.value.length <= |s|
  {
    FieldWidths();
    if |s| < 8 then None
    else
      var v := Unpack(ENTRY_FIELDS, s[..8]);
      var len := v[2];
      if len == 0 || v[3] != 0 || !ValidKind(v[1]) then None
      else if 8 + len > |s| then None
      else
        var name := s[8..8 + len];
        var next := 8 + len + PadOf(len);
        if next > |s| || !AllZero(s[8 + len..next]) then None
        else if !ValidName(name) then None
        else if prev.Some? && !Less(prev.value, name) then None
        else Some(Record(Entry(name, v[0], v[1]), next))
  }

  function DecodeRecords(s: seq<Byte>, count: nat, prev: Option<Name>): Option<seq<Entry>>
    decreases count
  {
    if count == 0 then (if s == [] then Some([]) else None)
    else
      var first := ParseRecord(s, prev);
      if first.None? then None
      else
        var rest := DecodeRecords(s[first.value.length..], count - 1, Some(first.value.entry.name));
        if rest.None? then None else Some([first.value.entry] + rest.value)
  }

  function Decode(data: seq<Byte>): Option<seq<Entry>> {
    FieldWidths();
    if |data| < 8 then None
    else
      var v := Unpack(DIRECTORY_FIELDS, data[..8]);
      if v[0] != MAGIC_DIRECTORY || v[1] > MAX_ENTRIES then None
      else DecodeRecords(data[8..], v[1], None)
  }

  lemma EntryParts(e: Entry, tail: seq<Byte>)
    requires ValidEntry(e)
    ensures var s := EntryBytes(e) + tail;
      var len := |e.name|;
      var next := 8 + len + PadOf(len);
      && Width(ENTRY_FIELDS) == 8 && |s| >= next
      && Unpack(ENTRY_FIELDS, s[..8]) == [e.inode, e.kind, len, 0]
      && s[8..8 + len] == e.name && AllZero(s[8 + len..next]) && s[next..] == tail
  {
    FieldWidths();
    PowValues();
    var s := EntryBytes(e) + tail;
    assert s[..8] == EntryHeader(e);
    UnpackOfPack(ENTRY_FIELDS, [e.inode, e.kind, |e.name|, 0]);
  }

  lemma ParseOfEntry(e: Entry, tail: seq<Byte>, prev: Option<Name>)
    requires ValidEntry(e) && (prev.Some? ==> Less(prev.value, e.name))
    ensures ParseRecord(EntryBytes(e) + tail, prev) == Some(Record(e, |EntryBytes(e)|))
    ensures (EntryBytes(e) + tail)[|EntryBytes(e)|..] == tail
  {
    EntryParts(e, tail);
  }

  lemma EntryOfParse(s: seq<Byte>, prev: Option<Name>)
    requires ParseRecord(s, prev).Some?
    ensures var r := ParseRecord(s, prev).value;
      && ValidEntry(r.entry) && (prev.Some? ==> Less(prev.value, r.entry.name))
      && s == EntryBytes(r.entry) + s[r.length..]
  {
    hide Pack, Unpack, Less, ValidName;
    FieldWidths();
    PowValues();
    var r := ParseRecord(s, prev).value;
    var v := Unpack(ENTRY_FIELDS, s[..8]);
    var len := |r.entry.name|;
    assert v[0] < Pow256(ENTRY_FIELDS[0]) && v[2] < Pow256(ENTRY_FIELDS[2]);
    assert v == [r.entry.inode, r.entry.kind, len, 0];
    PackOfUnpack(ENTRY_FIELDS, s[..8]);
    AllZeroIsZeros(s[8 + len..r.length]);
    FourPieces(s, 8, 8 + len, r.length);
  }

  lemma FourPieces(s: seq<Byte>, i: nat, j: nat, k: nat)
    requires i <= j <= k <= |s|
    ensures s == s[..i] + s[i..j] + s[j..k] + s[k..]
  {
  }

  lemma DecodeCons(e: Entry, tail: seq<Byte>, count: nat, prev: Option<Name>, rest: seq<Entry>)
    requires ValidEntry(e) && count > 0 && (prev.Some? ==> Less(prev.value, e.name))
    requires DecodeRecords(tail, count - 1, Some(e.name)) == Some(rest)
    ensures DecodeRecords(EntryBytes(e) + tail, count, prev) == Some([e] + rest)
  {
    ParseOfEntry(e, tail, prev);
  }

  lemma {:induction false} DecodeOfRecords(es: seq<Entry>, prev: Option<Name>)
    requires StrictlySorted(es) && AllValid(es) && After(prev, es)
    ensures DecodeRecords(Records(es), |es|, prev) == Some(es)
  {
    hide ParseRecord, EntryBytes, Less;
    if es != [] {
      DecodeOfRecords(es[1..], Some(es[0].name));
      DecodeCons(es[0], Records(es[1..]), |es|, prev, es[1..]);
      assert es == [es[0]] + es[1..];
    }
  }

  lemma {:induction false} RecordsOfDecode(s: seq<Byte>, count: nat, prev: Option<Name>)
    requires DecodeRecords(s, count, prev).Some?
    ensures var es := DecodeRecords(s, count, prev).value;
      && |es| == count && StrictlySorted(es) && AllValid(es) && After(prev, es)
      && Records(es) == s
    decreases count
  {
    if count > 0 {
      EntryOfParse(s, prev);
      var r := ParseRecord(s, prev).value;
      RecordsOfDecode(s[r.length..], count - 1, Some(r.entry.name));
      var rest := DecodeRecords(s[r.length..], count - 1, Some(r.entry.name)).value;
      assert ([r.entry] + rest)[1..] == rest;
    }
  }

  lemma DirHeaderParts(count: nat, tail: seq<Byte>)
    requires count < 0x1_0000_0000
    ensures Width(DIRECTORY_FIELDS) == 8
    ensures Unpack(DIRECTORY_FIELDS, (DirHeader(count) + tail)[..8]) == [MAGIC_DIRECTORY, count]
    ensures (DirHeader(count) + tail)[8..] == tail
  {
    FieldWidths();
    PowValues();
    assert (DirHeader(count) + tail)[..8] == DirHeader(count);
    UnpackOfPack(DIRECTORY_FIELDS, [MAGIC_DIRECTORY, count]);
  }

  /** Decoding an encoded directory gives back its entries in byte order. */
  lemma DecodeOfEncode(es: seq<Entry>)
    requires Encode(es).Encoded?
    ensures Decode(Encode(es).bytes) == Some(Sort(es))
  {
    var ordered := Sort(es);
    DirHeaderParts(|ordered|, Records(ordered));
    DecodeOfRecords(ordered, None);
  }

  /** Re-encoding whatever the decoder accepts reproduces the same byte string. */
  lemma EncodeOfDecode(data: seq<Byte>)
    requires Decode(data).Some?
    ensures var es := Decode(data).value;
      StrictlySorted(es) && AllValid(es) && |es| <= MAX_ENTRIES && Encode(es) == Encoded(data)
  {
    FieldWidths();
    var v := Unpack(DIRECTORY_FIELDS, data[..8]);
    RecordsOfDecode(data[8..], v[1], None);
    var es := Decode(data).value;
    SortOfSorted(es);
    PackOfUnpack(DIRECTORY_FIELDS, data[..8]);
    assert v == [MAGIC_DIRECTORY, |es|];
    assert data == data[..8] + data[8..];
  }

  // ---- The two loops over the byte buffer ----

  predicate WeaklySorted(es: seq<Entry>) {
    forall i :: 0 < i < |es| ==> !Less(es[i].name, es[i - 1].name)
  }

  lemma {:induction false} InsertWeaklySorted(e: Entry, es: seq<Entry>)
    requires WeaklySorted(es)
    ensures WeaklySorted(Insert(e, es))
  {
    if es == [] {
    } else if Less(e.name, es[0].name) {
      if Less(es[0].name, e.name) {
        LessTransitive(e.name, es[0].name, e.name);
        LessIrreflexive(e.name);
      }
    } else {
      assert WeaklySorted(es[1..]) by {
        forall i | 0 < i < |es[1..]| ensures !Less(es[1..][i].name, es[1..][i - 1].name) {
          assert es[1..][i] == es[i + 1] && es[1..][i - 1] == es[i];
        }
      }
      InsertWeaklySorted(e, es[1..]);
      var t := Insert(e, es[1..]);
      forall i | 0 < i < |[es[0]] + t| ensures !Less(([es[0]] + t)[i].name, ([es[0]] + t)[i - 1].name) {
        if i > 1 {
          assert !Less(t[i - 1].name, t[i - 2].name);
        }
      }
    }
  }

  lemma {:induction false} SortWeaklySorted(es: seq<Entry>)
    ensures WeaklySorted(Sort(es))
  {
    if es != [] {
      SortWeaklySorted(es[..|es| - 1]);
      InsertWeaklySorted(es[|es| - 1], Sort(es[..|es| - 1]));
    }
  }

  lemma {:induction false} SortedIsAdjacent(es: seq<Entry>)
    ensures StrictlySorted(es) <==> forall i :: 0 < i < |es| ==> Less(es[i - 1].name, es[i].name)
  {
    if es != [] {
      SortedIsAdjacent(es[1..]);
      if StrictlySorted(es) {
        forall i | 0 < i < |es| ensures Less(es[i - 1].name, es[i].name) {
          if i > 1 {
            assert Less(es[1..][i - 2].name, es[1..][i - 1].name);
          }
        }
      } else if StrictlySorted(es[1..]) {
        assert !Less(es[0].name, es[1].name);
      } else {
        var i :| 0 < i < |es[1..]| && !Less(es[1..][i - 1].name, es[1..][i].name);
        assert !Less(es[i].name, es[i + 1].name);
      }
    }
  }

  lemma Assoc(a: seq<Byte>, b: seq<Byte>, c: seq<Byte>)
    ensures (a + b) + c == a + (b + c)
  {
  }

  lemma {:induction false} RecordsSnoc(es: seq<Entry>, e: Entry)
    ensures Records(es + [e]) == Records(es) + EntryBytes(e)
  {
    if es == [] {
      assert es + [e] == [e];
      assert [e][1..] == [];
    } else {
      RecordsSnoc(es[1..], e);
      assert (es + [e])[0] == es[0] && (es + [e])[1..] == es[1..] + [e];
      Assoc(EntryBytes(es[0]), Records(es[1..]), EntryBytes(e));
    }
  }

  /** The record loop of the encoder: duplicate names and unpackable fields are refused. */
  lemma OrderStep(ordered: seq<Entry>, k: nat)
    requires WeaklySorted(ordered) && 0 < k < |ordered|
    ensures Less(ordered[k - 1].name, ordered[k].name) <==> ordered[k - 1].name != ordered[k].name
    ensures ordered[k - 1].name == ordered[k].name ==> !StrictlySorted(ordered)
  {
    hide StrictlySorted, Less;
    SortedIsAdjacent(ordered);
    LessIrreflexive(ordered[k].name);
    LessTotal(ordered[k - 1].name, ordered[k].name);
  }

  lemma ValidStep(ordered: seq<Entry>, k: nat)
    requires k < |ordered| && ValidName(ordered[k].name)
    ensures ordered[..k + 1] == ordered[..k] + [ordered[k]]
    ensures var e := ordered[k];
      var accepted := ValidKind(e.kind) && e.inode < 0x1_0000_0000;
      && (!accepted ==> !AllValid(ordered))
      && (accepted && AllValid(ordered[..k]) ==> AllValid(ordered[..k + 1]))
  {
    hide ValidName;
    assert AllValid(ordered) ==> ValidEntry(ordered[k]);
  }

  method AppendRecords(ordered: seq<Entry>) returns (ok: bool, out: seq<Byte>)
    requires WeaklySorted(ordered)
    requires forall i :: 0 <= i < |ordered| ==> ValidName(ordered[i].name)
    ensures ok <==> StrictlySorted(ordered) && AllValid(ordered)
    ensures ok ==> out == Records(ordered)
  {
    assert Records(ordered[..0]) == [] && AllValid(ordered[..0]);
    hide EntryBytes, Records, StrictlySorted, Less, ValidName, AllValid;
    out := [];
    var previous: Option<Name> := None;
    for k := 0 to |ordered|
      invariant out == Records(ordered[..k])
      invariant previous == if k == 0 then None else Some(ordered[k - 1].name)
      invariant forall i :: 0 < i < k ==> Less(ordered[i - 1].name, ordered[i].name)
      invariant AllValid(ordered[..k])
    {
      var entry := ordered[k];
      ValidStep(ordered, k);
      if k > 0 {
        OrderStep(ordered, k);
      }
      if previous == Some(entry.name) {
        return false, out;
      }
      if !ValidKind(entry.kind) || entry.inode >= 0x1_0000_0000 {
        return false, out;
      }
      RecordsSnoc(ordered[..k], entry);
      out := out + EntryBytes(entry);
      previous := Some(entry.name);
    }
    SortedIsAdjacent(ordered);
    assert ordered[..|ordered|] == ordered;
    ok := true;
  }

  method EncodeDirectory(es: seq<Entry>) returns (r: EncodeResult)
    ensures r == Encode(es)
  {
    var ordered := Sort(es);
    SortKeepsAll(es);
    SortWeaklySorted(es);
    if exists i :: 0 <= i < |es| && !ValidName(es[i].name) {
      return InvalidName;
    }
    if |ordered| > MAX_ENTRIES {
      return TooManyEntries;
    }
    forall i | 0 <= i < |ordered| ensures ValidName(ordered[i].name) {
      assert ordered[i] in es;
    }
    var ok, records := AppendRecords(ordered);
    r := if ok then Encoded(DirHeader(|ordered|) + records) else InvalidEntry;
  }

  ghost function Prepend(es: seq<Entry>, rest: Option<seq<Entry>>): Option<seq<Entry>> {
    if rest.None? then None else Some(es + rest.value)
  }

  lemma DecodeAdvance(done: seq<Entry>, data: seq<Byte>, offset: nat, count: nat, previous: Option<Name>)
    requires offset <= |data| && count > 0
    ensures var record := ParseRecord(data[offset..], previous);
      Prepend(done, DecodeRecords(data[offset..], count, previous))
      == if record.None? then None
         else Prepend(done + [record.value.entry],
                      DecodeRecords(data[offset + record.value.length..], count - 1, Some(record.value.entry.name)))
  {
    hide ParseRecord;
    var record := ParseRecord(data[offset..], previous);
    if record.Some? {
      var e, length := record.value.entry, record.value.length;
      assert data[offset..][length..] == data[offset + length..];
      var rest := DecodeRecords(data[offset + length..], count - 1, Some(e.name));
      if rest.Some? {
        assert done + ([e] + rest.value) == (done + [e]) + rest.value;
      }
    }
  }

  lemma DecodeEnds(done: seq<Entry>, data: seq<Byte>, offset: nat, previous: Option<Name>)
    requires offset <= |data|
    ensures Prepend(done, DecodeRecords(data[offset..], 0, previous)) == if offset == |data| then Some(done) else None
  {
    assert done + [] == done;
  }

  lemma PrependNothing(rest: Option<seq<Entry>>)
    ensures Prepend([], rest) == rest
  {
    assert rest.Some? ==> [] + rest.value == rest.value;
  }

  /** The record loop of the decoder, from just after the directory header. */
  method ReadRecords(data: seq<Byte>, count: nat) returns (r: Option<seq<Entry>>)
    requires |data| >= 8
    ensures r == DecodeRecords(data[8..], count, None)
  {
    hide ParseRecord, DecodeRecords, Prepend;
    var entries: seq<Entry> := [];
    var offset := 8;
    var previous: Option<Name> := None;
    ghost var all := DecodeRecords(data[8..], count, None);
    PrependNothing(all);
    for k := 0 to count
      invariant 8 <= offset <= |data|
      invariant all == Prepend(entries, DecodeRecords(data[offset..], count - k, previous))
    {
      var record := ParseRecord(data[offset..], previous);
      DecodeAdvance(entries, data, offset, count - k, previous);
      if record.None? {
        return None;
      }
      entries := entries + [record.value.entry];
      offset := offset + record.value.length;
      previous := Some(record.value.entry.name);
    }
    DecodeEnds(entries, data, offset, previous);
    if offset != |data| {
      return None;
    }
    r := Some(entries);
  }

  method DecodeDirectory(data: seq<Byte>) returns (r: Option<seq<Entry>>)
    ensures r == Decode(data)
  {
    FieldWidths();
    if |data| < 8 {
      return None;
    }
    var header := Unpack(DIRECTORY_FIELDS, data[..8]);
    if header[0] != MAGIC_DIRECTORY || header[1] > MAX_ENTRIES {
      return None;
    }
    r := ReadRecords(data, header[1]);
  }

  // ---- Adding and dropping one entry ----

  ghost predicate NameIn(es: seq<Entry>, name: Name) {
    exists e :: e in es && e.name == name
  }

  lemma {:induction false} InsertKeepsSorted(e: Entry, es: seq<Entry>)
    requires StrictlySorted(es) && !NameIn(es, e.name)
    ensures StrictlySorted(Insert(e, es))
    ensures forall prev :: After(prev, es) && (prev.Some? ==> Less(prev.value, e.name)) ==> After(prev, Insert(e, es))
  {
    if es == [] || Less(e.name, es[0].name) {
      assert ([e] + es)[1..] == es;
    } else {
      assert es[0] in es && forall f :: f in es[1..] ==> f in es;
      LessTotal(e.name, es[0].name);
      InsertKeepsSorted(e, es[1..]);
      assert ([es[0]] + Insert(e, es[1..]))[1..] == Insert(e, es[1..]);
      assert After(Some(es[0].name), Insert(e, es[1..]));
    }
  }

  /** A directory accepts any valid entry under a new name, up to its capacity. */
  lemma AllValidSorted(es: seq<Entry>)
    requires AllValid(es)
    ensures AllValid(Sort(es))
  {
    hide Sort, ValidEntry;
    SortKeepsAll(es);
    ValidAll(es);
    ValidAll(Sort(es));
  }

  lemma EncodeWithNew(es: seq<Entry>, e: Entry)
    requires StrictlySorted(es) && AllValid(es) && ValidEntry(e) && !NameIn(es, e.name)
    ensures if |es| < MAX_ENTRIES then Encode(es + [e]).Encoded? else Encode(es + [e]).TooManyEntries?
    ensures StrictlySorted(Sort(es + [e])) && forall f :: f in Sort(es + [e]) <==> f in es || f == e
  {
    hide StrictlySorted, ValidEntry, ValidName, Records, EntryBytes, Insert;
    assert (es + [e])[..|es|] == es;
    SortOfSorted(es);
    InsertKeepsSorted(e, es);
    SortKeepsAll(es + [e]);
    assert AllValid(es + [e]);
    AllValidSorted(es + [e]);
    hide AllValid;
    assert forall i :: 0 <= i < |es + [e]| ==> ValidName((es + [e])[i].name) by { ValidNames(es + [e]); }
  }

  lemma ValidAll(es: seq<Entry>)
    ensures AllValid(es) <==> forall e :: e in es ==> ValidEntry(e)
  {
    hide ValidEntry;
  }

  lemma ValidNames(es: seq<Entry>)
    requires AllValid(es)
    ensures forall i :: 0 <= i < |es| ==> ValidName(es[i].name)
  {
    hide ValidName;
  }

  /** The entries that stay when a name is removed. */
  function Without(es: seq<Entry>, name: Name): seq<Entry> {
    if es == [] then []
    else if es[0].name == name then Without(es[1..], name)
    else [es[0]] + Without(es[1..], name)
  }

  lemma {:induction false} WithoutIs(es: seq<Entry>, name: Name)
    ensures |Without(es, name)| <= |es|
    ensures forall e :: e in Without(es, name) <==> e in es && e.name != name
  {
    if es != [] {
      WithoutIs(es[1..], name);
      assert es == [es[0]] + es[1..];
    }
  }

  lemma {:induction false} WithoutSorted(es: seq<Entry>, name: Name)
    requires StrictlySorted(es)
    ensures StrictlySorted(Without(es, name))
  {
    if es != [] {
      WithoutSorted(es[1..], name);
      var rest := Without(es[1..], name);
      assert ([es[0]] + rest)[1..] == rest;
      if rest != [] {
        WithoutIs(es[1..], name);
        assert rest[0] in es[1..];
        var j :| 0 <= j < |es[1..]| && es[1..][j] == rest[0];
        SortedHeadBelow(es, j + 1);
      }
    }
  }

  lemma EncodeWithout(es: seq<Entry>, name: Name)
    requires StrictlySorted(es) && AllValid(es) && |es| <= MAX_ENTRIES
    ensures Encode(Without(es, name)).Encoded?
    ensures Sort(Without(es, name)) == Without(es, name) && StrictlySorted(Without(es, name))
  {
    hide StrictlySorted, ValidEntry, Without;
    var kept := Without(es, name);
    WithoutSorted(es, name);
    WithoutIs(es, name);
    SortOfSorted(kept);
    ValidAll(es);
    ValidAll(kept);
    assert forall i :: 0 <= i < |kept| ==> ValidName(kept[i].name) by { ValidNames(kept); }
  }

  lemma {:induction false} RecordsSize(es: seq<Entry>)
    requires AllValid(es)
    ensures |Records(es)| <= 268 * |es|
  {
    if es != [] {
      assert ValidEntry(es[0]);
      FieldWidths();
      RecordsSize(es[1..]);
    }
  }

  lemma EncodedSize(es: seq<Entry>)
    requires Encode(es).Encoded?
    ensures |Encode(es).bytes| <= 8 + 268 * MAX_ENTRIES
  {
    FieldWidths();
    RecordsSize(Sort(es));
  }
}
