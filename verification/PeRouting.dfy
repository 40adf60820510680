/**
 Which imports a preparation reroutes, said on names letter by letter.
 */
module PeRouting {
  import opened Options
  import opened PeFormat
  import opened PeRoute
  import opened PePrepare
  import opened PeImports

  /** The library is the plan's source, small ASCII letters read as capitals. */
  ghost predicate IsSource(dll: Bytes, source: Bytes) {
    |dll| == |source| && forall i :: 0 <= i < |dll| ==> source[i] == if 97 <= dll[i] <= 122 then dll[i] - 32 else dll[i]
  }

  /** The import names a symbol that the plan serves, and names it in the plan's source library. */
  ghost predicate Served(plan: Plan, x: Binding) {
    x.symbol.Some? && x.symbol.value in plan.supported && IsSource(x.dll, plan.source)
  }

  /** The same value, symbol and cell; the provider's library exactly for served symbols. */
  ghost predicate Routed(plan: Plan, x: Binding, y: Binding) {
    && y.value == x.value && y.symbol == x.symbol && y.iat == x.iat
    && y.dll == if Served(plan, x) then plan.provider else x.dll
  }

  lemma MigratesIff(plan: Plan, dll: Bytes, symbol: Option<Bytes>)
    ensures Migrates(plan, dll, symbol) <==> symbol.Some? && symbol.value in plan.supported && IsSource(dll, plan.source)
  {
    if UpperAll(dll) == plan.source {
      assert forall i :: 0 <= i < |dll| ==> UpperAll(dll)[i] == plan.source[i];
    }
    if IsSource(dll, plan.source) {
      assert forall i :: 0 <= i < |dll| ==> UpperAll(dll)[i] == plan.source[i];
    }
  }

  /**
   Of an accepted image whose header pointer and names survive, the output binds every import as
   planned; and an accepted image has an import to reroute.
   */
  lemma PreparedRoutes(b: Bytes, plan: Plan, out: Bytes, p: Pe, ds: seq<Descriptor>)
    requires Readable(plan.provider) && Prepared(b, plan) == Some(out)
    requires Parse(b) == Some(p) && p.opt + 224 <= |b| && Imports(b, p) == Some(ds)
    ensures exists j :: 0 <= j < |Flatten(ds)| && Served(plan, Flatten(ds)[j])
    ensures PointerLives(b, p, plan, Flatten(ds)) && NamesUntouched(p, Flatten(ds), CellsOf(Flatten(ds))) ==>
      && Parse(out).Some? && Parse(out).value.opt + 224 <= |out| && Imports(out, Parse(out).value).Some?
      && var xs, ys := Flatten(ds), Flatten(Imports(out, Parse(out).value).value);
      && |ys| == |xs| && forall j :: 0 <= j < |xs| ==> Routed(plan, xs[j], ys[j])
  {
    hide Parse, Imports, Flatten, CellsOf, PointerLives, NamesUntouched, CellHolds, Rewritten, Migrates, IsSource;
    PreparedPreserves(b, plan);
    PreparedRedirects(b, plan, p, ds);
    var xs := Flatten(ds);
    SameCells(p, plan, xs);
    forall j | 0 <= j < |xs| ensures Routed(plan, xs[j], RerouteAll(plan, xs)[j]) {
      MigratesIff(plan, xs[j].dll, xs[j].symbol);
    }
    var j :| 0 <= j < |xs| && Migrates(plan, xs[j].dll, xs[j].symbol);
    MigratesIff(plan, xs[j].dll, xs[j].symbol);
  }

  /** Only where the cells are matters to the names. */
  lemma SameCells(p: Pe, plan: Plan, xs: seq<Binding>)
    ensures NamesUntouched(p, xs, CellsOf(RerouteAll(plan, xs))) <==> NamesUntouched(p, xs, CellsOf(xs))
  {
    hide Migrates, Offset, InHeaderFields;
    var cs, ds := CellsOf(RerouteAll(plan, xs)), CellsOf(xs);
    assert forall j, k :: 0 <= j < |xs| ==> (InCell(p, cs[j], k) <==> InCell(p, ds[j], k));
    assert forall k :: Rewritten(p, cs, k) <==> Rewritten(p, ds, k);
    assert forall rva, n :: NameUntouched(p, cs, rva, n) <==> NameUntouched(p, ds, rva, n);
  }

  lemma PreparedRedirects(b: Bytes, plan: Plan, p: Pe, ds: seq<Descriptor>)
    requires Prepared(b, plan).Some? && Parse(b) == Some(p) && p.opt + 224 <= |b| && Imports(b, p) == Some(ds)
    ensures Redirects(plan, Flatten(ds))
  {
    hide Parse, Imports, Flatten, CellsOf, RerouteAll, Redirects, HasSlack, LayoutOk, Supported, Assembled, PayloadOf, GroupsOf, CanAssemble;
  }

  // ---- The bindings are the descriptors' entries in order ----

  /** The entries of the first `i` descriptors. */
  function EntriesBefore(ds: seq<Descriptor>, i: nat): nat
    requires i <= |ds|
  {
    if i == 0 then 0 else |ds[0].entries| + EntriesBefore(ds[1..], i - 1)
  }

  /** Bindings are numbered descriptor by descriptor, entry by entry. */
  lemma {:induction false} FlattenAt(ds: seq<Descriptor>, i: nat, k: nat)
    requires i < |ds| && k < |ds[i].entries|
    ensures var j := EntriesBefore(ds, i) + k;
      && j < |Flatten(ds)|
      && Flatten(ds)[j] == Binding(ds[i].dll, ds[i].entries[k].value, ds[i].entries[k].symbol, ds[i].entries[k].iat)
  {
    if i == 0 {
      BindAllIs(ds[0].dll, ds[0].entries, k);
    } else {
      FlattenAt(ds[1..], i - 1, k);
    }
  }
}
