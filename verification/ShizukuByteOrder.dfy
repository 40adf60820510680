/**
 The order and the bytes of a directory payload, said without the encoder's own comparison:
 names ascend byte by byte, a name before all its extensions.
 */
module ShizukuByteOrder {
  import opened Options
  import opened ByteStrings
  import opened ShizukuDirectory

  /** At the first position where the names part, the first name ends or has the smaller byte. */
  ghost predicate Ascends(x: Name, y: Name) {
    exists k: nat :: PartAt(x, y, k)
  }

  ghost predicate PartAt(x: Name, y: Name, k: nat) {
    && k <= |x| && k <= |y| && x[..k] == y[..k]
    && ((k == |x| && k < |y|) || (k < |x| && k < |y| && x[k] < y[k]))
  }

  lemma PartLate(x: Name, y: Name, k: nat)
    requires PartAt(x, y, k)
    ensures k > 0 ==> x[0] == y[0]
  {
    if k > 0 {
      assert x[..k][0] == y[..k][0];
    }
  }

  lemma {:induction false} LessAscends(x: Name, y: Name)
    ensures Less(x, y) <==> Ascends(x, y)
  {
    if y == [] || x == [] {
      assert x == [] && y != [] ==> PartAt(x, y, 0);
    } else if x[0] != y[0] {
      assert x[0] < y[0] ==> PartAt(x, y, 0);
      forall k: nat | PartAt(x, y, k) ensures k == 0 {
        PartLate(x, y, k);
      }
    } else {
      LessAscends(x[1..], y[1..]);
      if k: nat :| PartAt(x[1..], y[1..], k) {
        assert x[..k + 1] == [x[0]] + x[1..][..k] && y[..k + 1] == [y[0]] + y[1..][..k];
        assert PartAt(x, y, k + 1);
      }
      if k: nat :| PartAt(x, y, k) {
        assert x[1..][..k - 1] == x[..k][1..] && y[1..][..k - 1] == y[..k][1..];
        assert PartAt(x[1..], y[1..], k - 1);
      }
    }
  }

  ghost predicate Ascending(es: seq<Entry>) {
    forall i, j :: 0 <= i < j < |es| ==> Ascends(es[i].name, es[j].name)
  }

  lemma AscendingIsSorted(es: seq<Entry>)
    ensures StrictlySorted(es) <==> Ascending(es)
  {
    SortedIsAdjacent(es);
    if Ascending(es) {
      forall i | 0 < i < |es| ensures Less(es[i - 1].name, es[i].name) {
        LessAscends(es[i - 1].name, es[i].name);
      }
    }
    if StrictlySorted(es) {
      forall i, j | 0 <= i < j < |es| ensures Ascends(es[i].name, es[j].name) {
        SortedPairs(es, i, j);
        LessAscends(es[i].name, es[j].name);
      }
    }
  }

  lemma {:induction false} SortedPairs(es: seq<Entry>, i: nat, j: nat)
    requires StrictlySorted(es) && i < j < |es|
    ensures Less(es[i].name, es[j].name)
  {
    if i == 0 {
      SortedHeadBelow(es, j);
    } else {
      SortedPairs(es[1..], i - 1, j - 1);
    }
  }

  /** What the decoder accepts ascends. */
  lemma DecodedAscends(data: seq<Byte>)
    requires Decode(data).Some?
    ensures Ascending(Decode(data).value)
  {
    hide Decode;
    EncodeOfDecode(data);
    AscendingIsSorted(Decode(data).value);
  }

  /** Ascending valid entries encode, and decode to themselves. */
  lemma AscendingDecodes(es: seq<Entry>)
    requires |es| <= MAX_ENTRIES && AllValid(es) && Ascending(es)
    ensures Encode(es).Encoded? && Decode(Encode(es).bytes) == Some(es)
  {
    AscendingIsSorted(es);
    SortOfSorted(es);
    ValidNames(es);
    DecodeOfEncode(es);
  }

  ghost predicate DifferentNames(es: seq<Entry>) {
    forall i, j :: 0 <= i < j < |es| ==> es[i].name != es[j].name
  }

  lemma TwoPlaces(es: seq<Entry>, e: Entry)
    requires multiset(es)[e] >= 2
    ensures exists i, j :: 0 <= i < j < |es| && es[i] == es[j] == e
  {
    assert e in es;
    var i :| 0 <= i < |es| && es[i] == e;
    assert es == es[..i] + [e] + es[i + 1..];
    if e in es[..i] {
      var j :| 0 <= j < i && es[..i][j] == e;
      assert es[j] == e;
    } else {
      assert e in multiset(es[i + 1..]);
      var j :| 0 <= j < |es[i + 1..]| && es[i + 1..][j] == e;
      assert es[i + 1 + j] == e;
    }
  }

  lemma SameNamesTwice(es: seq<Entry>, fs: seq<Entry>)
    requires multiset(es) == multiset(fs) && DifferentNames(es)
    ensures DifferentNames(fs)
  {
    forall i, j | 0 <= i < j < |fs| ensures fs[i].name != fs[j].name {
      var e, f := fs[i], fs[j];
      if e == f {
        assert fs == fs[..i] + [e] + fs[i + 1..j] + [e] + fs[j + 1..];
        assert multiset(fs)[e] >= 2;
        TwoPlaces(es, e);
      } else {
        assert e in multiset(es) && f in multiset(es);
        var p :| 0 <= p < |es| && es[p] == e;
        var q :| 0 <= q < |es| && es[q] == f;
        assert if p < q then es[p].name != es[q].name else es[q].name != es[p].name;
      }
    }
  }

  /** Sorting refuses nothing but a repeated name. */
  lemma SortedIffDifferent(es: seq<Entry>)
    ensures StrictlySorted(Sort(es)) <==> DifferentNames(es)
  {
    hide Sort, StrictlySorted, Less;
    var ordered := Sort(es);
    SortKeepsAll(es);
    SortWeaklySorted(es);
    SortedIsAdjacent(ordered);
    if StrictlySorted(ordered) {
      forall i, j | 0 <= i < j < |ordered| ensures ordered[i].name != ordered[j].name {
        if ordered[i].name == ordered[j].name {
          SortedNamesDistinct(ordered, i, j);
        }
      }
      SameNamesTwice(ordered, es);
    }
    if DifferentNames(es) {
      SameNamesTwice(es, ordered);
      forall k | 0 < k < |ordered| ensures Less(ordered[k - 1].name, ordered[k].name) {
        OrderStep(ordered, k);
      }
    }
  }

  /** The encoder accepts exactly valid entries with different names, and writes them ascending. */
  lemma EncodedIff(es: seq<Entry>)
    ensures Encode(es).Encoded? <==> |es| <= MAX_ENTRIES && AllValid(es) && DifferentNames(es)
    ensures Encode(es).Encoded? ==>
      && Decode(Encode(es).bytes).Some?
      && var written := Decode(Encode(es).bytes).value; Ascending(written) && multiset(written) == multiset(es)
  {
    hide Sort, StrictlySorted, Less, ValidName, Records, DirHeader, Decode, DifferentNames, Ascending;
    SortKeepsAll(es);
    SortedIffDifferent(es);
    ValidAll(es);
    ValidAll(Sort(es));
    if AllValid(es) {
      ValidNames(es);
    }
    if Encode(es).Encoded? {
      DecodeOfEncode(es);
      AscendingIsSorted(Sort(es));
    }
  }
}
