/**
 Computing a snapshot from declarations and a parent snapshot, and substituting into a value.
 */
module CssCompute {
  import opened Options
  import opened CssTokens
  import opened CssBrackets
  import opened CssSubstitution
  import opened CssNormalize
  import opened CssRoom
  import opened CssProperties
  import opened CssVariables
  import opened CssVarRead
  import opened CssVarText
  import opened CssEvaluator

  datatype Declaration = Declaration(name: Text, value: Text)

  /** A finished table with plain values: what a computation leaves behind. */
  ghost predicate Snapshot(ps: Table) {
    && Distinct(ps) && AllFinished(ps) && |ps| <= PROPERTY_MAX
    && forall i :: 0 <= i < |ps| ==> ps[i].value.Valid? ==> Kept(ps[i].value.tokens)
  }

  lemma SnapshotPlain(ps: Table)
    requires Snapshot(ps)
    ensures KeptValues(EnvOf(ps)) && PlainValues(EnvOf(ps))
  {
    hide Kept;
    forall n | n in EnvOf(ps) && EnvOf(ps)[n].Valid? ensures Kept(EnvOf(ps)[n].tokens) {
      var i :| 0 <= i < |ps| && ps[i].phase == Finished && ps[i].name == n;
      EnvAt(ps, i);
    }
    KeptArePlain(EnvOf(ps));
  }

  /** The values of a snapshot, by name. */
  method Values(ps: Table) returns (env: Env)
    requires Snapshot(ps)
    ensures env == EnvOf(ps)
  {
    env := map[];
    for i := 0 to |ps|
      invariant forall n :: n in env <==> exists k :: 0 <= k < i && ps[k].name == n
      invariant forall k :: 0 <= k < i ==> env[ps[k].name] == ps[k].value
    {
      env := env[ps[i].name := ps[i].value];
    }
    forall n ensures n in env <==> n in EnvOf(ps) {
      if n in env {
        var k :| 0 <= k < |ps| && ps[k].name == n;
        EnvAt(ps, k);
      }
    }
    forall n | n in env ensures env[n] == EnvOf(ps)[n] {
      var k :| 0 <= k < |ps| && ps[k].name == n;
      EnvAt(ps, k);
    }
  }

  // ---- Declarations ----

  function Inherited(p: Property): Property { Property(p.name, [], true, false, Finished, p.value, false) }

  function InheritAll(ps: Table): (r: Table)
    ensures |r| == |ps| && forall i :: 0 <= i < |ps| ==> r[i] == Inherited(ps[i])
  {
    seq(|ps|, i requires 0 <= i < |ps| => Inherited(ps[i]))
  }

  function CustomName(ts: seq<Token>): Option<Name> {
    if |ts| == 1 && ts[0].Ident? && IsCustom(ts[0].value) then Some(ts[0].value) else None
  }

  datatype Setup = Ready(table: Table) | Failed(status: Status)

  function IndexOf(ps: Table, name: Name): Option<nat> {
    if ps == [] then None
    else if ps[0].name == name then Some(0)
    else match IndexOf(ps[1..], name) case None => None case Some(i) => Some(i + 1)
  }

  lemma {:induction false} IndexOfIs(ps: Table, name: Name)
    ensures IndexOf(ps, name).Some? ==> IndexOf(ps, name).value < |ps| && ps[IndexOf(ps, name).value].name == name
    ensures IndexOf(ps, name).None? ==> forall i :: 0 <= i < |ps| ==> ps[i].name != name
  {
    if ps != [] && ps[0].name != name {
      IndexOfIs(ps[1..], name);
      forall i | 0 < i < |ps| && IndexOf(ps, name).None? ensures ps[i].name != name {
        assert ps[i] == ps[1..][i - 1];
      }
    }
  }

  /** The property that a declaration with an accepted value sets up. */
  function Declare(parent: Env, name: Name, ts: Stream): Property {
    if IsKeyword(ts, "initial") then Property(name, [], true, true, Finished, Invalid, false)
    else if IsInherit(ts) then Property(name, [], true, true, Finished, ValueIn(parent, name), false)
    else Property(name, ts, false, true, Fresh, Invalid, false)
  }

  function AddDeclaration(ps: Table, parent: Env, d: Declaration): Setup {
    match Tokenize(d.name)
    case LimitExceeded => Failed(Limit)
    case Tokenized(nameTokens) =>
      match CustomName(nameTokens)
      case None => Failed(BadArgument)
      case Some(name) =>
        var at := IndexOf(ps, name);
        IndexOfIs(ps, name);
        if at.Some? && ps[at.value].local then Failed(BadArgument)
        else match Tokenize(d.value)
             case LimitExceeded => Failed(Limit)
             case Tokenized(ts) =>
               match Normalize(ts)
               case Rejected => Failed(Malformed)
               case TooDeep => Failed(Limit)
               case Unsupported => Failed(NotSupported)
               case Normal(whole) =>
                 if IsRevert(whole) then Failed(NotSupported)
                 else if at.Some? then Ready(ps[at.value := Declare(parent, name, whole)])
                 else if |ps| == PROPERTY_MAX then Failed(Limit)
                 else Ready(ps + [Declare(parent, name, whole)])
  }

  /** A table before evaluation: nothing is busy, nothing is marked, fixed values are plain. */
  ghost predicate Prepared(ps: Table) {
    Distinct(ps) && |ps| <= PROPERTY_MAX && forall i :: 0 <= i < |ps| ==> PreparedProperty(ps[i])
  }

  ghost predicate PreparedProperty(p: Property) {
    && !p.cycle
    && (p.fixed ==> p.phase == Finished && (p.value.Valid? ==> Kept(p.value.tokens)))
    && (!p.fixed ==> p.phase == Fresh && Balanced(p.specified))
  }

  lemma DeclarePrepared(parent: Env, name: Name, ts: Stream)
    requires KeptValues(parent) && Balanced(ts)
    ensures PreparedProperty(Declare(parent, name, ts)) && Declare(parent, name, ts).name == name
  {
    hide Trim, IsWord;
  }

  lemma AddPrepares(ps: Table, parent: Env, d: Declaration)
    requires Prepared(ps) && KeptValues(parent) && AddDeclaration(ps, parent, d).Ready?
    ensures Prepared(AddDeclaration(ps, parent, d).table)
  {
    hide Normalize, Tokenize, Declare, PreparedProperty, PlainValues, IsKeyword;
    var name := CustomName(Tokenize(d.name).tokens).value;
    IndexOfIs(ps, name);
    var ts := Tokenize(d.value).tokens;
    NormalIsBalanced(ts);
    DeclarePrepared(parent, name, Normalize(ts).tokens);
  }

  lemma FixedOrderly(ps: Table)
    requires Distinct(ps) && forall i :: 0 <= i < |ps| && ps[i].phase == Finished ==> ps[i].fixed
    ensures Orderly(ps)
  {
    var rank: Name -> nat := n => 0;
    assert Ranked(ps, rank);
  }

  lemma PreparedOk(ps: Table, parent: Env)
    requires Prepared(ps) && KeptValues(parent)
    ensures TableOk(ps, parent) && StackOk(ps, []) && Orderly(ps)
  {
    hide Plain, Settle, Settled;
    forall i: nat | i < |ps| ensures PropertyOk(ps, parent, i) && ps[i].phase != Busy && (ps[i].phase == Finished ==> ps[i].fixed) {
      assert PreparedProperty(ps[i]);
    }
    FixedOrderly(ps);
  }

  // ---- Evaluating everything ----

  lemma PreparedGuided(ps: Table, parent: Env, m: Option<Meaning>, bound: nat)
    requires Prepared(ps) && (m.Some? ==> Means(ps, parent, m.value))
    ensures Guided(ps, [], parent, m, bound)
  {
    hide Settle, Substitute, References;
    if m.Some? {
      forall i | 0 <= i < |ps|
        ensures !ps[i].cycle && (ps[i].phase == Finished ==> ps[i].name in m.value.env && ps[i].value == m.value.env[ps[i].name])
      {
        assert PropertyMeans(ps, parent, m.value, ps[i]) && PreparedProperty(ps[i]);
      }
    }
  }

  /** The final table: every property is finished and consistent with all the others. */
  ghost predicate Computed(start: Table, parent: Env, ps: Table) {
    Evolves(start, ps) && TableOk(ps, parent) && AllFinished(ps)
  }

  /** The values of the properties without a cycle mark. */
  ghost function UnmarkedEnv(ps: Table): Env
    requires Distinct(ps)
  {
    map i | 0 <= i < |ps| && ps[i].phase == Finished && !ps[i].cycle :: ps[i].name := ps[i].value
  }

  /** The value is what substitution gives when properties with a cycle mark do not exist at all. */
  ghost predicate TakesFromUnmarked(ps: Table, parent: Env, p: Property)
    requires Distinct(ps)
  {
    Settle(parent, p.name, Substitute(UnmarkedEnv(ps), p.specified)) == Some(p.value)
  }

  ghost predicate CyclesContained(ps: Table, parent: Env) {
    && Distinct(ps)
    && forall p :: p in ps && !p.fixed ==> if p.cycle then p.value == Invalid else TakesFromUnmarked(ps, parent, p)
  }

  /** However cycles overlap, no value takes a token from a marked property. */
  lemma MarkedCountAsAbsent(ps: Table, parent: Env)
    requires TableOk(ps, parent) && AllFinished(ps)
    ensures CyclesContained(ps, parent)
  {
    hide Settle, Substitute, References, CallReferences, Plain, Balanced;
    var env, unmarked := EnvOf(ps), UnmarkedEnv(ps);
    forall n ensures ValueIn(unmarked, n) == ValueIn(env, n) {
      if n in env {
        var i: nat :| i < |ps| && ps[i].name == n;
        assert PropertyOk(ps, parent, i);
        EnvAt(ps, i);
        assert n in unmarked <==> !ps[i].cycle;
      }
    }
    forall p | p in ps && !p.fixed ensures if p.cycle then p.value == Invalid else TakesFromUnmarked(ps, parent, p) {
      var i: nat :| i < |ps| && ps[i] == p;
      assert PropertyOk(ps, parent, i);
      SubstituteLocal(env, unmarked, p.specified);
    }
  }

  /**
   The outcome of a run: cycle marks appear exactly when the table has no meaning, and
   otherwise the values are those of every meaning it has. In either case no value takes
   anything from a marked property.
   */
  ghost predicate Evaluated(start: Table, parent: Env, ps: Table) {
    && Computed(start, parent, ps) && CyclesContained(ps, parent)
    && (HasMeaning(start, parent) <==> NoCycle(ps))
    && forall m :: Means(start, parent, m) ==> EnvOf(ps) == m.env
  }

  /** Under a meaning the status says exactly whether the limits suffice. */
  ghost predicate Decided(start: Table, parent: Env, status: Status) {
    forall m :: Means(start, parent, m) ==> status == if Roomy(start, m) then Done else Limit
  }

  /** Other statuses come from a substituted value that is refused. */
  ghost predicate Halts(start: Table, parent: Env, status: Status) { exists b :: Stops(start, b, parent, status) }

  method EvaluateAll(start: Table, parent: Env) returns (status: Status, ps: Table)
    requires Prepared(start) && KeptValues(parent)
    ensures status == Done ==> Evaluated(start, parent, ps)
    ensures Decided(start, parent, status) && (status != Done ==> Halts(start, parent, status))
  {
    hide TableOk, StackOk, Orderly, Means, Follows, Prepared, Evaluated, HasMeaning, NoCycle, Roomy, Stuck;
    PreparedOk(start, parent);
    ghost var m := SomeMeaning(start, parent);
    ghost var bound := if m.Some? then RankBound(start, m.value.rank) else 0;
    PreparedGuided(start, parent, m, bound);
    var e := new Evaluator(parent, start);
    ps := start;
    EvolvesSelf(start);
    for j: nat := 0 to |start|
      invariant fresh(e) && e.parent == parent && e.stack == [] && e.Inv() && Evolves(start, e.props)
      invariant Guided(e.props, [], parent, m, bound)
      invariant forall i :: 0 <= i < j ==> e.props[i].phase == Finished
    {
      ghost var before := e.props;
      assert Evolved(start[j], before[j]);
      NobodyBusy(before);
      status := e.Evaluate(j, m, bound);
      if status != Done {
        StopsLater(start, before, e.props, parent, status);
        EvolvesSpecs(start, before);
        Stopped(start, before, parent, m, status);
        return;
      }
      EvolvesTransitive(start, before, e.props);
      forall i | 0 <= i <= j ensures e.props[i].phase == Finished {
        assert Evolved(before[i], e.props[i]);
      }
    }
    ps := e.props;
    RunIsMeaning(start, parent, m, ps, bound);
    Finishes(start, ps, parent, m, bound);
    status := Done;
  }

  lemma OneVerdict(start: Table, parent: Env, m: Option<Meaning>, status: Status)
    requires Distinct(start) && (m.Some? <==> HasMeaning(start, parent))
    requires m.Some? ==> Means(start, parent, m.value) && status == if Roomy(start, m.value) then Done else Limit
    ensures Decided(start, parent, status)
  {
    hide Means, Room;
    forall m' | Means(start, parent, m') ensures status == if Roomy(start, m') then Done else Limit {
      SameMeaning(start, parent, m.value, m');
      assert forall p :: HasRoom(m', p) <==> HasRoom(m.value, p);
    }
  }

  lemma Stopped(start: Table, before: Table, parent: Env, m: Option<Meaning>, status: Status)
    requires Prepared(start) && SameSpecs(start, before) && (m.Some? <==> HasMeaning(start, parent)) && status != Done
    requires m.Some? ==> Means(start, parent, m.value)
    requires Completes(before, m, true, status)
    ensures Decided(start, parent, status)
  {
    hide Means, Roomy, HasMeaning, Decided;
    if m.Some? {
      RoomyKept(start, before, m.value);
    }
    OneVerdict(start, parent, m, status);
  }

  lemma Finishes(start: Table, ps: Table, parent: Env, m: Option<Meaning>, bound: nat)
    requires Prepared(start) && Computed(start, parent, ps) && Guided(ps, [], parent, m, bound)
    requires m.Some? <==> HasMeaning(start, parent)
    requires m.Some? ==> Means(start, parent, m.value)
    ensures Decided(start, parent, Done)
  {
    hide Means, HasMeaning, Decided, TableOk, Room;
    EvolvesSpecs(start, ps);
    if m.Some? {
      assert Roomy(ps, m.value);
      RoomyKept(start, ps, m.value);
    }
    OneVerdict(start, parent, m, Done);
  }

  ghost function SomeMeaning(ps: Table, parent: Env): (r: Option<Meaning>)
    ensures r.Some? <==> HasMeaning(ps, parent)
    ensures r.Some? ==> Means(ps, parent, r.value)
  {
    if m :| Means(ps, parent, m) then Some(m) else None
  }

  /** Without cycle marks the computed values, ranked by the order of finishing, are a meaning. */
  lemma UnmarkedIsMeaning(start: Table, parent: Env, ps: Table)
    requires Prepared(start) && Computed(start, parent, ps) && Orderly(ps) && NoCycle(ps)
    ensures exists m :: Means(start, parent, m) && m.env == EnvOf(ps)
  {
    hide Settle, Substitute, References, Plain;
    var rank: Name -> nat :| Ranked(ps, rank);
    var m := Meaning(EnvOf(ps), rank);
    EvolvesKeeps(start, ps);
    DistinctKept(start, ps);
    forall n ensures n in m.env <==> Declared(start, n) {
      AllDeclared(ps, n);
    }
    forall i: nat | i < |start| ensures PropertyMeans(start, parent, m, start[i]) {
      assert PreparedProperty(start[i]) && Evolved(start[i], ps[i]);
      assert PropertyOk(ps, parent, i) && RankedAt(ps, rank, i);
      EnvAt(ps, i);
    }
    assert Means(start, parent, m);
  }

  lemma AllDeclared(ps: Table, n: Name)
    requires Distinct(ps) && AllFinished(ps)
    ensures n in EnvOf(ps) <==> Declared(ps, n)
  {
    if Declared(ps, n) {
      var i: nat :| i < |ps| && ps[i].name == n;
      EnvAt(ps, i);
    }
  }

  lemma RunIsMeaning(start: Table, parent: Env, m: Option<Meaning>, ps: Table, bound: nat)
    requires Prepared(start) && Computed(start, parent, ps) && Orderly(ps) && Guided(ps, [], parent, m, bound)
    requires m.Some? <==> HasMeaning(start, parent)
    requires m.Some? ==> Means(start, parent, m.value)
    ensures Evaluated(start, parent, ps)
  {
    assert Distinct(start) && Distinct(ps);
    MarkedCountAsAbsent(ps, parent);
    hide TableOk, Orderly, Prepared, Means, CyclesContained;
    if m.Some? {
      AllFollow(ps, parent, m.value);
      assert NoCycle(ps);
      forall m' | Means(start, parent, m') ensures EnvOf(ps) == m'.env {
        SameMeaning(start, parent, m.value, m');
      }
    } else if NoCycle(ps) {
      UnmarkedIsMeaning(start, parent, ps);
    }
  }

  lemma SameMeaning(ps: Table, parent: Env, m: Meaning, m': Meaning)
    requires Distinct(ps) && Means(ps, parent, m) && Means(ps, parent, m')
    ensures m.env == m'.env
  {
    forall n | n in m.env ensures n in m'.env && m.env[n] == m'.env[n] {
      var i: nat :| i < |ps| && ps[i].name == n;
      MeaningIsUnique(ps, parent, m, m', i);
    }
  }

  lemma NobodyBusy(ps: Table)
    requires StackOk(ps, [])
    ensures forall i :: 0 <= i < |ps| ==> ps[i].phase != Busy
  {
  }

  lemma AllFollow(ps: Table, parent: Env, m: Meaning)
    requires TableOk(ps, parent) && AllFinished(ps) && Means(ps, parent, m) && Follows(ps, m)
    ensures EnvOf(ps) == m.env
  {
    hide PropertyOk, PropertyMeans;
    forall n ensures n in EnvOf(ps) <==> n in m.env {
      if n in m.env {
        var i :| 0 <= i < |ps| && ps[i].name == n;
        EnvAt(ps, i);
      }
    }
    forall n | n in EnvOf(ps) ensures EnvOf(ps)[n] == m.env[n] {
      var i :| 0 <= i < |ps| && ps[i].phase == Finished && ps[i].name == n;
      EnvAt(ps, i);
    }
  }

  // ---- The interface ----

  /** Adds all declarations in order, stopping at the first failure. */
  function SetUp(ps: Table, parent: Env, ds: seq<Declaration>): Setup
    decreases |ds|
  {
    if ds == [] then Ready(ps)
    else match AddDeclaration(ps, parent, ds[0])
         case Failed(status) => Failed(status)
         case Ready(next) => SetUp(next, parent, ds[1..])
  }

  ghost function ParentEnv(parent: Option<Table>): Env
    requires parent.Some? ==> Snapshot(parent.value)
  {
    if parent.Some? then EnvOf(parent.value) else map[]
  }

  function ParentTable(parent: Option<Table>): Table { if parent.Some? then InheritAll(parent.value) else [] }

  lemma InheritedPrepared(parent: Option<Table>)
    requires parent.Some? ==> Snapshot(parent.value)
    ensures Prepared(ParentTable(parent)) && KeptValues(ParentEnv(parent))
  {
    if parent.Some? {
      SnapshotPlain(parent.value);
    }
  }

  lemma {:induction false} SetUpPrepares(ps: Table, parent: Env, ds: seq<Declaration>)
    requires Prepared(ps) && KeptValues(parent) && SetUp(ps, parent, ds).Ready?
    ensures Prepared(SetUp(ps, parent, ds).table)
    decreases |ds|
  {
    hide AddDeclaration, Prepared;
    if ds != [] {
      AddPrepares(ps, parent, ds[0]);
      SetUpPrepares(AddDeclaration(ps, parent, ds[0]).table, parent, ds[1..]);
    }
  }

  method SetUpTable(ps: Table, parent: Env, ds: seq<Declaration>) returns (r: Setup)
    ensures r == SetUp(ps, parent, ds)
  {
    hide AddDeclaration;
    var table := ps;
    assert ds[0..] == ds;
    for k := 0 to |ds|
      invariant SetUp(ps, parent, ds) == SetUp(table, parent, ds[k..])
    {
      assert ds[k..][1..] == ds[k + 1..];
      var next := AddDeclaration(table, parent, ds[k]);
      if next.Failed? {
        return next;
      }
      table := next.table;
    }
    assert ds[|ds|..] == [];
    return Ready(table);
  }

  /** The status of a computation: that of the first declaration refused, or of the evaluation. */
  ghost predicate Answers(ds: seq<Declaration>, parent: Option<Table>, status: Status)
    requires parent.Some? ==> Snapshot(parent.value)
  {
    if |ds| > PROPERTY_MAX then status == Limit
    else match SetUp(ParentTable(parent), ParentEnv(parent), ds)
         case Failed(why) => status == why
         case Ready(table) =>
           Decided(table, ParentEnv(parent), status) && (status != Done ==> Halts(table, ParentEnv(parent), status))
  }

  /**
   Computes all values. Each is finished and consistent; the declarations have a meaning exactly
   when nothing is cycle-marked, and then the values are that meaning's.
   */
  method Compute(ds: seq<Declaration>, parent: Option<Table>) returns (status: Status, ps: Table)
    requires parent.Some? ==> Snapshot(parent.value)
    ensures status == Done ==> ComputedFrom(ds, parent, ps)
    ensures Answers(ds, parent, status)
  {
    hide TableOk, Means, NoCycle, HasMeaning, AddDeclaration, Prepared, Snapshot, SetUp, Decided, Halts, Evaluated;
    ps := [];
    if |ds| > PROPERTY_MAX {
      return Limit, ps;
    }
    InheritedPrepared(parent);
    var env: Env := map[];
    if parent.Some? {
      env := Values(parent.value);
    }
    var setup := SetUpTable(ParentTable(parent), env, ds);
    match setup
    case Failed(why) =>
      FailureIsNotDone(ParentTable(parent), env, ds);
      return why, ps;
    case Ready(table) =>
      SetUpPrepares(ParentTable(parent), env, ds);
      status, ps := EvaluateAll(table, env);
      if status == Done {
        IsSnapshot(table, env, ps);
      }
  }

  lemma AddFails(ps: Table, parent: Env, d: Declaration)
    ensures AddDeclaration(ps, parent, d) != Failed(Done)
  {
    hide Normalize, Tokenize, Declare, IsKeyword;
  }

  lemma {:induction false} FailureIsNotDone(ps: Table, parent: Env, ds: seq<Declaration>)
    ensures SetUp(ps, parent, ds) != Failed(Done)
    decreases |ds|
  {
    hide AddDeclaration;
    if ds != [] {
      AddFails(ps, parent, ds[0]);
      if AddDeclaration(ps, parent, ds[0]).Ready? {
        FailureIsNotDone(AddDeclaration(ps, parent, ds[0]).table, parent, ds[1..]);
      }
    }
  }

  lemma IsSnapshot(start: Table, parent: Env, ps: Table)
    requires Prepared(start) && Evaluated(start, parent, ps)
    ensures Snapshot(ps)
  {
    hide Plain, Settle, Settled, Means, HasMeaning, CyclesContained;
    forall i: nat | i < |ps| ensures ps[i].value.Valid? ==> Kept(ps[i].value.tokens) {
      assert PropertyOk(ps, parent, i);
    }
  }

  /** The status of a substitution into a text. */
  ghost function SubstitutionStatus(env: Env, text: Text): Status {
    match Tokenize(text)
    case LimitExceeded => Limit
    case Tokenized(tokens) =>
      match Normalize(tokens)
      case Normal(ts) =>
        var sub := Substitute(env, ts);
        if !Room(env, ts, [], 0) then Limit else if sub.bad then Done else StatusOf(Normalize(AppendAll([], sub.out)))
      case refused => StatusOf(refused)
  }

  /** The values of a snapshot are a meaning of its frozen copy, in which every property is fixed. */
  lemma FrozenMeaning(ps: Table, m: Meaning, ts: Stream)
    requires Snapshot(ps) && m == Meaning(EnvOf(ps), n => 0)
    ensures Guided(InheritAll(ps), [], map[], Some(m), 1) && Roomy(InheritAll(ps), m)
    ensures Below(InheritAll(ps), m, References(m.env, ts), 1)
  {
    hide Plain, References, Settle, Room;
    var frozen := InheritAll(ps);
    forall i | 0 <= i < |frozen| ensures PropertyMeans(frozen, map[], m, frozen[i]) && FollowsAt(m, frozen[i]) {
      EnvAt(ps, i);
    }
    forall n ensures n in m.env <==> Declared(frozen, n) {
      if n in m.env {
        var i :| 0 <= i < |ps| && ps[i].name == n;
        assert frozen[i].name == n;
      }
      if Declared(frozen, n) {
        var i :| 0 <= i < |frozen| && frozen[i].name == n;
        EnvAt(ps, i);
      }
    }
  }

  lemma SnapshotValue(ps: Table, n: Name)
    requires Snapshot(ps)
    ensures KeptValues(EnvOf(ps))
    ensures forall tokens :: HasValue(ps, n, tokens) <==> ValueIn(EnvOf(ps), n) == Valid(tokens)
    ensures NoValue(ps, n) <==> ValueIn(EnvOf(ps), n) == Invalid
  {
    hide Kept;
    SnapshotPlain(ps);
    forall i | 0 <= i < |ps| ensures ps[i].name == n ==> ValueIn(EnvOf(ps), n) == ps[i].value {
      EnvAt(ps, i);
    }
    if n in EnvOf(ps) {
      var i :| 0 <= i < |ps| && ps[i].phase == Finished && ps[i].name == n;
    }
  }

  /** What a substitution into a text promises of its status and result. */
  ghost predicate Substituted(ps: Table, text: Text, status: Status, invalid: bool, out: Stream)
    requires Distinct(ps)
  {
    && status == SubstitutionStatus(EnvOf(ps), text)
    && (status == Done ==> Tokenize(text).Tokenized? && Normalize(Tokenize(text).tokens).Normal?)
    && (status == Done ==>
          var sub := Substitute(EnvOf(ps), Normalize(Tokenize(text).tokens).tokens);
          invalid == sub.bad && (!invalid ==> out == AppendAll([], sub.out) && Plain(out)))
  }

  lemma CallAnswered(ps: Table, w: Text, n: Text, status: Status, invalid: bool, out: Stream)
    requires Snapshot(ps) && VarWord(w) && Dashed(n) && |VarCall(w, n)| <= INPUT_MAX
    requires Substituted(ps, VarCall(w, n), status, invalid, out)
    ensures GivesValue(ps, n, status, invalid, out)
  {
    assert Distinct(ps);
    hide Snapshot, Tokens, Preprocess, Normalize, Substitute, Room, Plain, VarCall, CallTokens, HasValue, NoValue;
    CallReads(w, n);
    SnapshotValue(ps, n);
    assert |CallTokens(w, n)| == 3 && CallTokens(w, n) == [Token.Function(w), Ident(n), Symbol(41)] by { CallShape(w, n); }
    CallIsNormal(w, n);
    CallSubstitutes(EnvOf(ps), w, n);
    assert |n| <= INPUT_MAX by { CallLength(w, n); }
    CallHasRoom(EnvOf(ps), w, n);
    KeptCopies(EnvOf(ps), n);
  }

  lemma CallShape(w: Text, n: Text)
    ensures CallTokens(w, n) == [Token.Function(w), Ident(n), Symbol(41)]
  {
  }

  lemma CallLength(w: Text, n: Text)
    ensures |n| <= |VarCall(w, n)| && forall f :: |n| <= |VarElse(w, n, f)|
  {
  }

  lemma ElseAnswered(ps: Table, w: Text, n: Text, f: Text, fs: Stream, status: Status, invalid: bool, out: Stream)
    requires Snapshot(ps) && VarWord(w) && Dashed(n) && ReadsFallback(f, fs) && |VarElse(w, n, f)| <= INPUT_MAX
    requires Substituted(ps, VarElse(w, n, f), status, invalid, out)
    ensures GivesElse(ps, n, fs, status, invalid, out)
  {
    assert Distinct(ps);
    hide Snapshot, Tokens, Preprocess, Normalize, Substitute, Room, Plain, VarElse, HasValue, NoValue, Compact;
    ElseReads(w, n, f);
    SnapshotValue(ps, n);
    var ts := ElseTokens(w, n, fs);
    assert ts == [Token.Function(w), Ident(n), Symbol(44)] + (fs + [Symbol(41)]);
    ElseIsNormal(w, n, fs);
    ElseSubstitutes(EnvOf(ps), w, n, fs);
    assert |n| <= INPUT_MAX by { CallLength(w, n); }
    ElseHasRoom(EnvOf(ps), w, n, fs);
    KeptCopies(EnvOf(ps), n);
    CompactCopies(fs);
  }

  lemma CallsAnswered(ps: Table, text: Text, status: Status, invalid: bool, out: Stream)
    requires Snapshot(ps) && Substituted(ps, text, status, invalid, out)
    ensures AnswersCall(ps, text, status, invalid, out)
  {
    assert Distinct(ps);
    hide Snapshot, Substituted, VarCall, GivesValue;
    forall w, n | VarWord(w) && Dashed(n) && text == VarCall(w, n) && |text| <= INPUT_MAX
      ensures GivesValue(ps, n, status, invalid, out)
    {
      CallAnswered(ps, w, n, status, invalid, out);
    }
  }

  lemma ElsesAnswered(ps: Table, text: Text, status: Status, invalid: bool, out: Stream)
    requires Snapshot(ps) && Substituted(ps, text, status, invalid, out)
    ensures AnswersElse(ps, text, status, invalid, out)
  {
    assert Distinct(ps);
    hide Snapshot, Substituted, VarElse, ReadsFallback, GivesElse;
    forall w, n, f, fs | VarWord(w) && Dashed(n) && text == VarElse(w, n, f) && ReadsFallback(f, fs) && |text| <= INPUT_MAX
      ensures GivesElse(ps, n, fs, status, invalid, out)
    {
      ElseAnswered(ps, w, n, f, fs, status, invalid, out);
    }
  }

  lemma TextAnswered(ps: Table, text: Text)
    requires Snapshot(ps)
    ensures forall status, invalid, out :: Substituted(ps, text, status, invalid, out) ==>
              AnswersCall(ps, text, status, invalid, out) && AnswersElse(ps, text, status, invalid, out)
  {
    assert Distinct(ps);
    hide Snapshot, Substituted, AnswersCall, AnswersElse;
    forall status, invalid, out | Substituted(ps, text, status, invalid, out)
      ensures AnswersCall(ps, text, status, invalid, out) && AnswersElse(ps, text, status, invalid, out)
    {
      CallsAnswered(ps, text, status, invalid, out);
      ElsesAnswered(ps, text, status, invalid, out);
    }
  }

  /**
   Substitution into a value. The table evaluated on is afterwards what it was, a frozen copy of
   the snapshot; the result is balanced and free of calls.
   */
  method SubstituteValue(ps: Table, text: Text) returns (status: Status, invalid: bool, out: Stream, ghost after: Table)
    requires Snapshot(ps)
    ensures after == InheritAll(ps) && Distinct(ps) && Substituted(ps, text, status, invalid, out)
    ensures AnswersCall(ps, text, status, invalid, out) && AnswersElse(ps, text, status, invalid, out)
  {
    TextAnswered(ps, text);
    hide AnswersCall, AnswersElse;
    hide Normalize, Tokenize, TableOk, Substitute, Plain, Room, Roomy, References, Means, Follows, Below;
    out, invalid, after := [], false, InheritAll(ps);
    var tokens := Tokenize(text);
    if tokens.LimitExceeded? {
      return Limit, invalid, out, after;
    }
    var input := NormalizeStream(tokens.tokens);
    match input
    case Rejected => return Malformed, invalid, out, after;
    case TooDeep => return Limit, invalid, out, after;
    case Unsupported => return NotSupported, invalid, out, after;
    case Normal(ts) =>
      NormalIsBalanced(tokens.tokens);
      var frozen := InheritAll(ps);
      FrozenOk(ps);
      var e := new Evaluator(map[], frozen);
      ghost var m := Meaning(EnvOf(ps), n => 0);
      FrozenMeaning(ps, m, ts);
      status, out, invalid := e.Range(ts, [], 0, Some(m), 1);
      after := e.props;
      if status != Done {
        return;
      }
      ResultPlain(ps, ts, out, invalid);
      if !invalid {
        var normal := NormalizeStream(out);
        if !normal.Normal? {
          status := StatusOf(normal);
          return;
        }
        NormalIsBalanced(out);
        out := normal.tokens;
      }
  }

  lemma FrozenOk(ps: Table)
    requires Snapshot(ps)
    ensures TableOk(InheritAll(ps), map[]) && StackOk(InheritAll(ps), []) && AllFinished(InheritAll(ps)) && Orderly(InheritAll(ps))
    ensures Distinct(InheritAll(ps)) && EnvOf(InheritAll(ps)) == EnvOf(ps)
  {
    hide Plain, Settle, Settled;
    var frozen := InheritAll(ps);
    forall i: nat | i < |frozen| ensures PropertyOk(frozen, map[], i) {
      assert ps[i].value.Valid? ==> Kept(ps[i].value.tokens);
    }
    FixedOrderly(frozen);
    SameEnv(ps, frozen);
  }

  lemma SameEnv(a: Table, b: Table)
    requires Distinct(a) && Distinct(b) && |a| == |b| && AllFinished(a) && AllFinished(b)
    requires forall i :: 0 <= i < |a| ==> b[i].name == a[i].name && b[i].value == a[i].value
    ensures EnvOf(a) == EnvOf(b)
  {
    forall i: nat | i < |a| ensures a[i].name in EnvOf(a) && a[i].name in EnvOf(b) && EnvOf(a)[a[i].name] == EnvOf(b)[a[i].name] {
      EnvAt(a, i);
      EnvAt(b, i);
    }
  }

  lemma ResultPlain(ps: Table, ts: Stream, out: Stream, bad: bool)
    requires Snapshot(ps) && Balanced(ts) && RangeDone(InheritAll(ps), ts, [], out, bad)
    ensures out == AppendAll([], Substitute(EnvOf(ps), ts).out) && bad == Substitute(EnvOf(ps), ts).bad && Plain(out)
    ensures Balanced(out)
  {
    hide Substitute, Settled;
    FrozenOk(ps);
    SnapshotPlain(ps);
    SubstituteOpens(EnvOf(ps), ts, []);
    var raw := Substitute(EnvOf(ps), ts).out;
    AppendAllKeeps([], raw);
    assert [] + raw == raw;
  }

  // ---- What follows for callers ----

  /** Two meanings of one table give the same values. */
  lemma {:induction false} MeaningIsUnique(ps: Table, parent: Env, m: Meaning, m': Meaning, i: nat)
    requires Distinct(ps) && Means(ps, parent, m) && Means(ps, parent, m') && i < |ps|
    ensures m'.env[ps[i].name] == m.env[ps[i].name]
    decreases m.rank(ps[i].name)
  {
    hide Settle, Substitute, References;
    var p := ps[i];
    assert PropertyMeans(ps, parent, m, p) && PropertyMeans(ps, parent, m', p);
    if !p.fixed {
      forall n | n in References(m.env, p.specified) ensures ValueIn(m'.env, n) == ValueIn(m.env, n) {
        if Declared(ps, n) {
          var k :| 0 <= k < |ps| && ps[k].name == n;
          MeaningIsUnique(ps, parent, m, m', k);
        }
      }
      SubstituteLocal(m.env, m'.env, p.specified);
    }
  }

  // ---- The order of the declarations ----

  /** A table by name: what is left of it when the order is forgotten. */
  ghost function ByName(ps: Table): map<Name, Property>
    requires Distinct(ps)
  {
    map i | 0 <= i < |ps| :: ps[i].name := ps[i]
  }

  lemma ByNameAt(ps: Table, i: nat)
    requires Distinct(ps) && i < |ps|
    ensures ps[i].name in ByName(ps) && ByName(ps)[ps[i].name] == ps[i]
  {
  }

  /** The property that a declaration makes, if its name and value are acceptable. */
  ghost function Made(parent: Env, d: Declaration): Option<Property> {
    match Tokenize(d.name)
    case LimitExceeded => None
    case Tokenized(nameTokens) =>
      match CustomName(nameTokens)
      case None => None
      case Some(name) =>
        match Tokenize(d.value)
        case LimitExceeded => None
        case Tokenized(ts) =>
          match Normalize(ts)
          case Normal(whole) => if IsRevert(whole) then None else Some(Declare(parent, name, whole))
          case _ => None
  }

  /** There is room for the property, and no declaration of the same name came before. */
  ghost predicate Accepts(m: map<Name, Property>, p: Property) {
    if p.name in m then !m[p.name].local else |m| != PROPERTY_MAX
  }

  ghost function AddByName(m: map<Name, Property>, parent: Env, d: Declaration): Option<map<Name, Property>> {
    var p := Made(parent, d);
    if p.Some? && Accepts(m, p.value) then Some(m[p.value.name := p.value]) else None
  }

  ghost function SetUpByName(m: map<Name, Property>, parent: Env, ds: seq<Declaration>): Option<map<Name, Property>>
    decreases |ds|
  {
    if ds == [] then Some(m)
    else match AddByName(m, parent, ds[0])
         case None => None
         case Some(next) => SetUpByName(next, parent, ds[1..])
  }

  ghost function Forgotten(r: Setup): Option<map<Name, Property>>
    requires r.Ready? ==> Distinct(r.table)
  {
    if r.Ready? then Some(ByName(r.table)) else None
  }

  lemma MadeIs(parent: Env, d: Declaration)
    ensures Made(parent, d).Some? ==> Made(parent, d).value.local
  {
    hide Tokenize, Normalize, IsKeyword;
  }

  lemma {:induction false} ByNameSize(ps: Table)
    requires Distinct(ps)
    ensures |ByName(ps)| == |ps|
  {
    if ps != [] {
      var init := ps[..|ps| - 1];
      ByNameSize(init);
      var last := ps[|ps| - 1];
      assert ps == init + [last];
      PutExtends(init, last);
      hide ByName;
      if last.name in ByName(init) {
        var i := NameIndex(init, last.name);
      }
    }
  }

  lemma NameIndex(ps: Table, n: Name) returns (i: nat)
    requires Distinct(ps) && n in ByName(ps)
    ensures i < |ps| && ps[i].name == n && ByName(ps)[n] == ps[i]
  {
    i :| i < |ps| && ps[i].name == n;
  }

  /** Two tables of which one holds the other's properties, except perhaps for `p`. */
  lemma PutByName(ps: Table, r: Table, p: Property)
    requires Distinct(ps) && Distinct(r) && (exists k: nat :: k < |r| && r[k] == p)
    requires forall i: nat :: i < |ps| && ps[i].name != p.name ==> exists k: nat :: k < |r| && r[k] == ps[i]
    requires forall k: nat :: k < |r| && r[k].name != p.name ==> exists i: nat :: i < |ps| && r[k] == ps[i]
    ensures ByName(r) == ByName(ps)[p.name := p]
  {
    hide ByName;
    var k: nat :| k < |r| && r[k] == p;
    ByNameAt(r, k);
    forall n | n in ByName(r) && n != p.name ensures n in ByName(ps) && ByName(ps)[n] == ByName(r)[n] {
      var j := NameIndex(r, n);
      var i: nat :| i < |ps| && r[j] == ps[i];
      ByNameAt(ps, i);
    }
    forall n | n in ByName(ps) && n != p.name ensures n in ByName(r) {
      var i := NameIndex(ps, n);
      var j: nat :| j < |r| && r[j] == ps[i];
      ByNameAt(r, j);
    }
  }

  lemma PutExtends(ps: Table, p: Property)
    requires Distinct(ps) && forall i :: 0 <= i < |ps| ==> ps[i].name != p.name
    ensures Distinct(ps + [p]) && ByName(ps + [p]) == ByName(ps)[p.name := p]
  {
    hide ByName;
    var r := ps + [p];
    assert r[|ps|] == p && forall i: nat :: i < |ps| ==> r[i] == ps[i];
    PutByName(ps, r, p);
  }

  lemma PutReplaces(ps: Table, at: nat, p: Property)
    requires Distinct(ps) && at < |ps| && ps[at].name == p.name
    ensures Distinct(ps[at := p]) && ByName(ps[at := p]) == ByName(ps)[p.name := p]
  {
    hide ByName;
    var r := ps[at := p];
    assert r[at] == p;
    forall i: nat | i < |ps| && ps[i].name != p.name ensures exists k: nat :: k < |r| && r[k] == ps[i] {
      assert r[i] == ps[i];
    }
    forall k: nat | k < |r| && r[k].name != p.name ensures exists i: nat :: i < |ps| && r[k] == ps[i] {
      assert r[k] == ps[k];
    }
    PutByName(ps, r, p);
  }

  lemma AddForgets(ps: Table, parent: Env, d: Declaration)
    requires Distinct(ps)
    ensures var r := AddDeclaration(ps, parent, d);
      (r.Ready? ==> Distinct(r.table)) && Forgotten(r) == AddByName(ByName(ps), parent, d)
  {
    hide Tokenize, Normalize, Declare, IsKeyword, CustomName, ByName, IndexOf;
    var made := Made(parent, d);
    ByNameSize(ps);
    if made.Some? {
      var p, at := made.value, IndexOf(ps, CustomName(Tokenize(d.name).tokens).value);
      DeclareName(parent, CustomName(Tokenize(d.name).tokens).value, Normalize(Tokenize(d.value).tokens).tokens);
      IndexOfIs(ps, p.name);
      if at.Some? {
        ByNameAt(ps, at.value);
        PutReplaces(ps, at.value, p);
      } else {
        if p.name in ByName(ps) {
          var i := NameIndex(ps, p.name);
        }
        PutExtends(ps, p);
      }
    }
  }

  lemma DeclareName(parent: Env, name: Name, ts: Stream)
    ensures Declare(parent, name, ts).name == name
  {
    hide IsKeyword;
  }

  lemma {:induction false} SetUpForgets(ps: Table, parent: Env, ds: seq<Declaration>)
    requires Distinct(ps)
    ensures var r := SetUp(ps, parent, ds);
      (r.Ready? ==> Distinct(r.table)) && Forgotten(r) == SetUpByName(ByName(ps), parent, ds)
    decreases |ds|
  {
    hide AddDeclaration, AddByName, ByName;
    if ds != [] {
      AddForgets(ps, parent, ds[0]);
      if AddDeclaration(ps, parent, ds[0]).Ready? {
        SetUpForgets(AddDeclaration(ps, parent, ds[0]).table, parent, ds[1..]);
      }
    }
  }

  /** Two declarations can be added in either order, with the same result or refusal. */
  lemma AddsCommute(m: map<Name, Property>, parent: Env, d: Declaration, e: Declaration)
    ensures SetUpByName(m, parent, [d, e]) == SetUpByName(m, parent, [e, d])
  {
    hide Made;
    MadeIs(parent, d);
    MadeIs(parent, e);
    TwoSteps(m, parent, d, e);
    TwoSteps(m, parent, e, d);
    var p, q := Made(parent, d), Made(parent, e);
    if p.Some? && q.Some? && p.value.name != q.value.name {
      assert m[p.value.name := p.value][q.value.name := q.value] == m[q.value.name := q.value][p.value.name := p.value];
    }
  }

  lemma TwoSteps(m: map<Name, Property>, parent: Env, d: Declaration, e: Declaration)
    ensures SetUpByName(m, parent, [d, e])
         == match AddByName(m, parent, d) case None => None case Some(next) => AddByName(next, parent, e)
  {
    hide AddByName;
    assert [d, e][1..] == [e];
    if AddByName(m, parent, d).Some? {
      OneStep(AddByName(m, parent, d).value, parent, e);
    }
  }

  lemma OneStep(m: map<Name, Property>, parent: Env, d: Declaration)
    ensures SetUpByName(m, parent, [d]) == AddByName(m, parent, d)
  {
    hide AddByName;
    assert [d][1..] == [];
  }

  lemma {:induction false} SetUpConcat(m: map<Name, Property>, parent: Env, ds: seq<Declaration>, es: seq<Declaration>)
    ensures SetUpByName(m, parent, ds + es)
         == match SetUpByName(m, parent, ds) case None => None case Some(next) => SetUpByName(next, parent, es)
    decreases |ds|
  {
    hide AddByName;
    if ds == [] {
      assert ds + es == es;
    } else {
      assert (ds + es)[1..] == ds[1..] + es;
      match AddByName(m, parent, ds[0]) {
        case None =>
        case Some(next) => SetUpConcat(next, parent, ds[1..], es);
      }
    }
  }

  function Removed(ds: seq<Declaration>, k: nat): seq<Declaration>
    requires k < |ds|
  {
    ds[..k] + ds[k + 1..]
  }

  lemma RemoveFirst(ds: seq<Declaration>)
    requires ds != []
    ensures Removed(ds, 0) == ds[1..]
  {
  }

  lemma RemovedOne(ds: seq<Declaration>, k: nat)
    requires k < |ds|
    ensures multiset(Removed(ds, k)) == multiset(ds) - multiset{ds[k]}
  {
    assert ds == ds[..k] + [ds[k]] + ds[k + 1..];
  }

  /** Any declaration can be brought to the front. */
  lemma {:induction false} ToFront(m: map<Name, Property>, parent: Env, ds: seq<Declaration>, k: nat)
    requires k < |ds|
    ensures SetUpByName(m, parent, ds) == SetUpByName(m, parent, [ds[k]] + Removed(ds, k))
    decreases |ds|
  {
    hide AddByName;
    var d, e := ds[0], ds[k];
    if k == 0 {
      assert [ds[0]] + Removed(ds, 0) == ds;
    } else {
      var rest := ds[1..];
      var others := Removed(rest, k - 1);
      assert [e] + Removed(ds, k) == [e, d] + others && [d] + ([e] + others) == [d, e] + others;
      AddsCommute(m, parent, d, e);
      SetUpConcat(m, parent, [d, e], others);
      SetUpConcat(m, parent, [e, d], others);
      assert ([d] + ([e] + others))[1..] == [e] + others;
      match AddByName(m, parent, d) {
        case None =>
        case Some(next) => ToFront(next, parent, rest, k - 1);
      }
    }
  }

  /** The table that declarations set up does not depend on their order, nor does whether they are accepted. */
  lemma {:induction false} SetUpIgnoresOrder(m: map<Name, Property>, parent: Env, ds: seq<Declaration>, es: seq<Declaration>)
    requires multiset(ds) == multiset(es)
    ensures SetUpByName(m, parent, ds) == SetUpByName(m, parent, es)
    decreases |ds|
  {
    hide AddByName, Removed;
    assert |ds| == |multiset(ds)| == |multiset(es)| == |es|;
    if ds != [] {
      assert ds[0] in multiset(es);
      var k: nat :| k < |es| && es[k] == ds[0];
      ToFront(m, parent, es, k);
      RemovedOne(ds, 0);
      RemovedOne(es, k);
      assert Removed(ds, 0) == ds[1..] by { RemoveFirst(ds); }
      assert |ds[1..]| < |ds| && ([es[k]] + Removed(es, k))[1..] == Removed(es, k);
      match AddByName(m, parent, ds[0]) {
        case None =>
        case Some(next) => SetUpIgnoresOrder(next, parent, ds[1..], Removed(es, k));
      }
    }
  }

  ghost predicate SameProperties(a: Table, b: Table) { forall p :: p in a <==> p in b }

  lemma SameByName(a: Table, b: Table)
    requires Distinct(a) && Distinct(b) && ByName(a) == ByName(b)
    ensures SameProperties(a, b)
  {
    forall p ensures p in a <==> p in b {
      if p in a {
        var i: nat :| i < |a| && a[i] == p;
        ByNameAt(a, i);
        assert p.name in ByName(b);
        var j: nat :| j < |b| && b[j].name == p.name;
        ByNameAt(b, j);
      }
      if p in b {
        var i: nat :| i < |b| && b[i] == p;
        ByNameAt(b, i);
        assert p.name in ByName(a);
        var j: nat :| j < |a| && a[j].name == p.name;
        ByNameAt(a, j);
      }
    }
  }

  /** A meaning belongs to the set of properties, not to their order. */
  lemma MeaningIgnoresOrder(a: Table, b: Table, parent: Env, m: Meaning)
    requires SameProperties(a, b) && Means(a, parent, m)
    ensures Means(b, parent, m)
  {
    hide Settle, Substitute, References;
    forall n ensures Declared(a, n) <==> Declared(b, n) {
      if Declared(a, n) {
        var i :| 0 <= i < |a| && a[i].name == n;
        assert a[i] in b;
      }
      if Declared(b, n) {
        var i :| 0 <= i < |b| && b[i].name == n;
        assert b[i] in a;
      }
    }
    forall i | 0 <= i < |b| ensures PropertyMeans(b, parent, m, b[i]) {
      assert b[i] in a;
      var k :| 0 <= k < |a| && a[k] == b[i];
      assert PropertyMeans(a, parent, m, a[k]);
    }
  }

  lemma TablesAgree(a: Table, b: Table, parent: Env, ps: Table, qs: Table)
    requires SameProperties(a, b) && Evaluated(a, parent, ps) && Evaluated(b, parent, qs)
    ensures NoCycle(ps) <==> NoCycle(qs)
    ensures Distinct(ps) && Distinct(qs) && (NoCycle(ps) ==> EnvOf(ps) == EnvOf(qs))
  {
    assert Distinct(ps) && Distinct(qs);
    hide Means, TableOk, CyclesContained;
    if NoCycle(ps) {
      var m :| Means(a, parent, m);
      MeaningIgnoresOrder(a, b, parent, m);
    }
    if NoCycle(qs) {
      var m :| Means(b, parent, m);
      MeaningIgnoresOrder(b, a, parent, m);
    }
  }

  /** What a successful `Compute` promises of its result. */
  ghost predicate ComputedFrom(ds: seq<Declaration>, parent: Option<Table>, ps: Table)
    requires parent.Some? ==> Snapshot(parent.value)
  {
    var setup := SetUp(ParentTable(parent), ParentEnv(parent), ds);
    setup.Ready? && Evaluated(setup.table, ParentEnv(parent), ps) && Snapshot(ps)
  }

  /**
   The same declarations in any two orders are accepted alike, run into a cycle alike, and
   without one give every property the same value.
   */
  lemma OrderIsIrrelevant(ds: seq<Declaration>, es: seq<Declaration>, parent: Option<Table>)
    requires multiset(ds) == multiset(es) && (parent.Some? ==> Snapshot(parent.value))
    ensures SetUp(ParentTable(parent), ParentEnv(parent), ds).Ready? <==> SetUp(ParentTable(parent), ParentEnv(parent), es).Ready?
    ensures forall ps, qs :: ComputedFrom(ds, parent, ps) && ComputedFrom(es, parent, qs) ==>
              (NoCycle(ps) <==> NoCycle(qs)) && (NoCycle(ps) ==> EnvOf(ps) == EnvOf(qs))
  {
    hide SetUp, SetUpByName, Evaluated, NoCycle, EnvOf, ByName;
    InheritedPrepared(parent);
    var table, env := ParentTable(parent), ParentEnv(parent);
    SetUpForgets(table, env, ds);
    SetUpForgets(table, env, es);
    SetUpIgnoresOrder(ByName(table), env, ds, es);
    forall ps, qs | ComputedFrom(ds, parent, ps) && ComputedFrom(es, parent, qs)
      ensures (NoCycle(ps) <==> NoCycle(qs)) && (NoCycle(ps) ==> EnvOf(ps) == EnvOf(qs))
    {
      SameByName(SetUp(table, env, ds).table, SetUp(table, env, es).table);
      TablesAgree(SetUp(table, env, ds).table, SetUp(table, env, es).table, env, ps, qs);
    }
  }

  /** If the declarations have a meaning, both orders also succeed alike. */
  lemma StatusIgnoresOrder(ds: seq<Declaration>, es: seq<Declaration>, parent: Option<Table>, s: Status, t: Status)
    requires multiset(ds) == multiset(es) && (parent.Some? ==> Snapshot(parent.value))
    requires Answers(ds, parent, s) && Answers(es, parent, t)
    requires var setup := SetUp(ParentTable(parent), ParentEnv(parent), ds);
      setup.Ready? && HasMeaning(setup.table, ParentEnv(parent))
    ensures s == t
  {
    hide SetUp, SetUpByName, Halts, ByName, Means, Prepared, Room;
    assert |ds| == |multiset(ds)| == |multiset(es)| == |es|;
    InheritedPrepared(parent);
    var table, env := ParentTable(parent), ParentEnv(parent);
    PreparedDistinct(table);
    SetUpForgets(table, env, ds);
    SetUpForgets(table, env, es);
    SetUpIgnoresOrder(ByName(table), env, ds, es);
    var a, b := SetUp(table, env, ds).table, SetUp(table, env, es).table;
    SameByName(a, b);
    ByNameSize(a);
    ByNameSize(b);
    var m :| Means(a, env, m);
    MeaningIgnoresOrder(a, b, env, m);
    RoomyIgnoresOrder(a, b, m);
  }

  lemma PreparedDistinct(ps: Table)
    requires Prepared(ps)
    ensures Distinct(ps)
  {
  }

  lemma RoomyIgnoresOrder(a: Table, b: Table, m: Meaning)
    requires SameProperties(a, b) && |a| == |b|
    ensures Roomy(a, m) <==> Roomy(b, m)
  {
    hide HasRoom;
    assert forall p :: p in a <==> p in b;
    assert Roomy(a, m) <==> |a| <= PROPERTY_MAX && forall p :: p in a ==> HasRoom(m, p);
    assert Roomy(b, m) <==> |b| <= PROPERTY_MAX && forall p :: p in b ==> HasRoom(m, p);
  }
}
