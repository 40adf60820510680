/**
 What the text of a declared value comes to in a computed snapshot.
 */
module CssDeclared {
  import opened Options
  import opened CssTokens
  import opened CssVarRead
  import opened CssBrackets
  import opened CssSubstitution
  import opened CssNormalize
  import opened CssRoom
  import opened CssProperties
  import opened CssVariables
  import opened CssVarText
  import opened CssEvaluator
  import opened CssCompute

  // ---- Every declaration is in the table ----

  lemma AddMakes(m: map<Name, Property>, parent: Env, d: Declaration)
    requires AddByName(m, parent, d).Some?
    ensures Made(parent, d).Some? && Made(parent, d).value.local
    ensures var p := Made(parent, d).value; AddByName(m, parent, d).value == m[p.name := p] && (p.name in m ==> !m[p.name].local)
  {
    hide Made;
    MadeIs(parent, d);
  }

  lemma {:induction false} LocalStays(m: map<Name, Property>, parent: Env, ds: seq<Declaration>, p: Property)
    requires SetUpByName(m, parent, ds).Some? && p.name in m && m[p.name] == p && p.local
    ensures p.name in SetUpByName(m, parent, ds).value && SetUpByName(m, parent, ds).value[p.name] == p
    decreases |ds|
  {
    hide AddByName;
    if ds != [] {
      AddMakes(m, parent, ds[0]);
      LocalStays(AddByName(m, parent, ds[0]).value, parent, ds[1..], p);
    }
  }

  lemma {:induction false} EachIsMade(m: map<Name, Property>, parent: Env, ds: seq<Declaration>, k: nat)
    requires SetUpByName(m, parent, ds).Some? && k < |ds|
    ensures Made(parent, ds[k]).Some?
    ensures var p, r := Made(parent, ds[k]).value, SetUpByName(m, parent, ds).value; p.name in r && r[p.name] == p
    decreases |ds|
  {
    hide AddByName, Made;
    AddMakes(m, parent, ds[0]);
    var next := AddByName(m, parent, ds[0]).value;
    if k == 0 {
      LocalStays(next, parent, ds[1..], Made(parent, ds[0]).value);
    } else {
      EachIsMade(next, parent, ds[1..], k - 1);
    }
  }

  /** The property that a declaration sets up is there in the end, under its name and with its specified value. */
  lemma DeclaredIsComputed(ds: seq<Declaration>, parent: Option<Table>, ps: Table, k: nat) returns (i: nat)
    requires (parent.Some? ==> Snapshot(parent.value)) && ComputedFrom(ds, parent, ps) && k < |ds|
    ensures Made(ParentEnv(parent), ds[k]).Some? && i < |ps|
    ensures Evolved(Made(ParentEnv(parent), ds[k]).value, ps[i])
  {
    hide Made, SetUp, SetUpByName, TableOk, CyclesContained, HasMeaning, NoCycle, Means, Snapshot, ByName;
    InheritedPrepared(parent);
    var table, env := ParentTable(parent), ParentEnv(parent);
    PreparedDistinct(table);
    SetUpForgets(table, env, ds);
    EachIsMade(ByName(table), env, ds, k);
    var p, start := Made(env, ds[k]).value, SetUp(table, env, ds).table;
    i := NameIndex(start, p.name);
    assert Evolved(start[i], ps[i]);
  }

  lemma MadeFrom(parent: Env, d: Declaration)
    requires Dashed(d.name) && Made(parent, d).Some?
    ensures Tokenize(d.value).Tokenized? && Normalize(Tokenize(d.value).tokens).Normal?
    ensures var ts := Normalize(Tokenize(d.value).tokens).tokens;
      !IsRevert(ts) && Made(parent, d).value == Declare(parent, d.name, ts)
  {
    hide Tokens, Preprocess, Normalize, IsKeyword, Declare;
    TextReads(d.name);
  }

  // ---- Values ----

  lemma UnmarkedValue(ps: Table, parent: Env, n: Name)
    requires CyclesContained(ps, parent) && AllFinished(ps) && forall p :: p in ps && p.fixed ==> !p.cycle
    ensures forall tokens :: HasValue(ps, n, tokens) <==> ValueIn(UnmarkedEnv(ps), n) == Valid(tokens)
    ensures NoValue(ps, n) <==> ValueIn(UnmarkedEnv(ps), n) == Invalid
  {
    hide Settle, Substitute;
    var env := UnmarkedEnv(ps);
    forall i | 0 <= i < |ps| && ps[i].name == n ensures ValueIn(env, n) == ps[i].value {
      assert ps[i] in ps;
      assert !ps[i].cycle ==> n in env;
    }
    if n in env {
      var i :| 0 <= i < |ps| && ps[i].phase == Finished && !ps[i].cycle && ps[i].name == n;
    }
  }

  /** Of a value that is not fixed: nothing when it is on a cycle, otherwise what its substitution settles to. */
  lemma ComputedValue(ds: seq<Declaration>, parent: Option<Table>, ps: Table, k: nat) returns (i: nat, env: Env)
    requires (parent.Some? ==> Snapshot(parent.value)) && ComputedFrom(ds, parent, ps) && k < |ds| && Dashed(ds[k].name)
    ensures i < |ps| && ps[i].name == ds[k].name && (ps[i].cycle ==> ps[i].value == Invalid)
    ensures Tokenize(ds[k].value).Tokenized? && Normalize(Tokenize(ds[k].value).tokens).Normal?
    ensures var ts := Normalize(Tokenize(ds[k].value).tokens).tokens;
      && !IsRevert(ts) && (IsKeyword(ts, "initial") ==> ps[i].value == Invalid)
      && (!IsKeyword(ts, "initial") && IsInherit(ts) ==> ps[i].value == ValueIn(ParentEnv(parent), ds[k].name))
      && (!IsKeyword(ts, "initial") && !IsInherit(ts) && !ps[i].cycle ==>
            Settle(ParentEnv(parent), ds[k].name, Substitute(env, ts)) == Some(ps[i].value))
    ensures forall n, tokens :: HasValue(ps, n, tokens) ==> ValueIn(env, n) == Valid(tokens) && Kept(tokens)
    ensures forall n :: NoValue(ps, n) ==> ValueIn(env, n) == Invalid
  {
    hide Made, SetUp, SetUpByName, HasMeaning, NoCycle, Means, ByName, Tokenize, Normalize, Settle, Substitute, IsKeyword, Kept, References;
    var d, outer := ds[k], ParentEnv(parent);
    i := DeclaredIsComputed(ds, parent, ps, k);
    MadeFrom(outer, d);
    var ts := Normalize(Tokenize(d.value).tokens).tokens;
    var p := Declare(outer, d.name, ts);
    assert p.name == d.name by { DeclareName(outer, d.name, ts); }
    FixedUnmarked(ps, outer);
    env := UnmarkedEnv(ps);
    forall n ensures (forall tokens :: HasValue(ps, n, tokens) ==> ValueIn(env, n) == Valid(tokens) && Kept(tokens)) && (NoValue(ps, n) ==> ValueIn(env, n) == Invalid) {
      UnmarkedValue(ps, outer, n);
    }
    assert ps[i] in ps;
  }

  lemma FixedUnmarked(ps: Table, parent: Env)
    requires TableOk(ps, parent)
    ensures forall p :: p in ps && p.fixed ==> !p.cycle
  {
    hide Settle, Settled, Kept;
    forall p | p in ps && p.fixed ensures !p.cycle {
      var i: nat :| i < |ps| && ps[i] == p;
      assert PropertyOk(ps, parent, i);
    }
  }

  // ---- Declared texts ----

  lemma NotWide(ts: Stream)
    ensures |ts| > 0 && ts[0].Function? && ts[|ts| - 1] == Symbol(41) ==> !IsWide(ts)
  {
    if |ts| > 0 && ts[0].Function? && ts[|ts| - 1] == Symbol(41) {
      assert ts[0..] == ts && ts[..|ts|] == ts;
    }
  }

  /** A declared call takes the value of the property it names, or is invalid without one. */
  lemma DeclaredCall(ds: seq<Declaration>, parent: Option<Table>, ps: Table, k: nat, w: Text, n: Text) returns (i: nat)
    requires (parent.Some? ==> Snapshot(parent.value)) && ComputedFrom(ds, parent, ps) && k < |ds| && Dashed(ds[k].name)
    requires VarWord(w) && Dashed(n) && ds[k].value == VarCall(w, n)
    ensures i < |ps| && ps[i].name == ds[k].name && (ps[i].cycle ==> ps[i].value == Invalid)
    ensures !ps[i].cycle ==>
      (forall tokens :: HasValue(ps, n, tokens) ==> ps[i].value == Valid(tokens)) && (NoValue(ps, n) ==> ps[i].value == Invalid)
  {
    hide Snapshot, ComputedFrom, Tokens, Preprocess, Normalize, Settle, Substitute, HasValue, NoValue, Kept, VarCall, CallTokens, IsKeyword;
    var env;
    i, env := ComputedValue(ds, parent, ps, k);
    CallReads(w, n);
    assert CallTokens(w, n) == [Token.Function(w), Ident(n), Symbol(41)] by { CallShape(w, n); }
    CallIsNormal(w, n);
    CallSubstitutes(env, w, n);
    NotWide(CallTokens(w, n));
    forall tokens | HasValue(ps, n, tokens) && !ps[i].cycle ensures ps[i].value == Valid(tokens) {
      KeptSettles(ParentEnv(parent), ds[k].name, tokens);
    }
    InvalidSettles(ParentEnv(parent), ds[k].name);
  }

  lemma InvalidSettles(parent: Env, name: Name)
    ensures Settle(parent, name, Sub([], true)) == Some(Invalid)
  {
  }

  /** With a fallback, it takes the fallback when the property has no value. */
  lemma DeclaredElse(ds: seq<Declaration>, parent: Option<Table>, ps: Table, k: nat, w: Text, n: Text, f: Text, fs: Stream)
    returns (i: nat)
    requires (parent.Some? ==> Snapshot(parent.value)) && ComputedFrom(ds, parent, ps) && k < |ds| && Dashed(ds[k].name)
    requires VarWord(w) && Dashed(n) && ds[k].value == VarElse(w, n, f) && ReadsFallback(f, fs) && !IsWide(fs)
    ensures i < |ps| && ps[i].name == ds[k].name && (ps[i].cycle ==> ps[i].value == Invalid)
    ensures !ps[i].cycle ==>
      (forall tokens :: HasValue(ps, n, tokens) ==> ps[i].value == Valid(tokens)) && (NoValue(ps, n) ==> ps[i].value == Valid(fs))
  {
    hide Snapshot, ComputedFrom, Tokens, Preprocess, Normalize, Settle, Substitute, HasValue, NoValue, Kept, VarElse, IsKeyword, Compact;
    var env;
    i, env := ComputedValue(ds, parent, ps, k);
    ElseReads(w, n, f);
    var ts := ElseTokens(w, n, fs);
    assert ts == [Token.Function(w), Ident(n), Symbol(44)] + (fs + [Symbol(41)]);
    ElseIsNormal(w, n, fs);
    ElseSubstitutes(env, w, n, fs);
    NotWide(ts);
    forall tokens | HasValue(ps, n, tokens) && !ps[i].cycle ensures ps[i].value == Valid(tokens) {
      KeptSettles(ParentEnv(parent), ds[k].name, tokens);
    }
    assert Kept(fs) by { FallbackKept(fs); }
    KeptSettles(ParentEnv(parent), ds[k].name, fs);
  }

  lemma FallbackKept(fs: Stream)
    requires FallbackOk(fs) && !IsWide(fs)
    ensures Kept(fs)
  {
    hide Normalize, Compact, IsWide;
    FallbackFree(fs);
  }

  lemma WordIs(n: Text, word: string)
    requires Word(n) && forall i :: 0 <= i < |word| ==> 'a' <= word[i] <= 'z' || word[i] == '-'
    ensures IsKeyword([Ident(n)], word) <==> Spells(n, word)
  {
    var ts := [Ident(n)];
    assert ts[0..] == ts && ts[..1] == ts && ts[1..] == [];
    assert forall i :: 0 <= i < |n| ==> NamePoint(n[i]);
    if Spells(n, word) {
      assert forall i :: 0 <= i < |n| ==> Lower(n[i]) == word[i] as int;
    }
  }

  lemma WordIsNormal(n: Text)
    requires Word(n)
    ensures Normalize([Ident(n)]) == Normal([Ident(n)])
  {
    var ts := [Ident(n)];
    assert !Refused(ts, 0, []);
    assert Walk(ts, 0, [], false) == Walk(ts, 1, [], false);
    assert ts + [] == ts;
  }

  lemma WordSettles(env: Env, parent: Env, name: Name, n: Text)
    requires Word(n) && !IsWide([Ident(n)])
    ensures Settle(parent, name, Substitute(env, [Ident(n)])) == Some(Valid([Ident(n)]))
  {
    hide Normalize, IsKeyword;
    var ts := [Ident(n)];
    assert ts[1..] == [] && ts + [] == ts;
    NameCopies(n);
    WordIsNormal(n);
  }

  /** A declared word stands for itself, except for the CSS-wide keywords. */
  lemma DeclaredWord(ds: seq<Declaration>, parent: Option<Table>, ps: Table, k: nat) returns (i: nat)
    requires (parent.Some? ==> Snapshot(parent.value)) && ComputedFrom(ds, parent, ps) && k < |ds| && Dashed(ds[k].name)
    requires Word(ds[k].value)
    ensures i < |ps| && ps[i].name == ds[k].name && (ps[i].cycle ==> ps[i].value == Invalid)
    ensures var n, p := ds[k].value, ps[i];
      && !Spells(n, "revert") && !Spells(n, "revert-layer") && !Spells(n, "revert-rule")
      && (Spells(n, "initial") ==> p.value == Invalid)
      && (Spells(n, "inherit") || Spells(n, "unset") ==>
            if parent.None? || NoValue(parent.value, p.name) then p.value == Invalid
            else p.value.Valid? && HasValue(parent.value, p.name, p.value.tokens))
      && (!Spells(n, "initial") && !Spells(n, "inherit") && !Spells(n, "unset") && !p.cycle ==> p.value == Valid([Ident(n)]))
  {
    hide ComputedFrom, Tokens, Preprocess, Normalize, Settle, Substitute, HasValue, NoValue, Kept, IsKeyword, Spells, Snapshot;
    var n, env := ds[k].value, map[];
    i, env := ComputedValue(ds, parent, ps, k);
    TextReads(n);
    WordIsNormal(n);
    WordIs(n, "revert");
    WordIs(n, "revert-layer");
    WordIs(n, "revert-rule");
    WordIs(n, "initial");
    WordIs(n, "inherit");
    WordIs(n, "unset");
    if parent.Some? {
      SnapshotValue(parent.value, ds[k].name);
    }
    if !Spells(n, "initial") && !Spells(n, "inherit") && !Spells(n, "unset") {
      WordSettles(env, ParentEnv(parent), ds[k].name, n);
    } else {
      assert Spells(n, "initial") ==> !Spells(n, "inherit") && !Spells(n, "unset") by { DifferentWords(n); }
    }
  }

  lemma DifferentWords(n: Text)
    ensures Spells(n, "initial") ==> !Spells(n, "inherit") && !Spells(n, "unset")
  {
    assert Spells(n, "initial") ==> n[2] == 105 || n[2] == 73;
    assert Spells(n, "inherit") ==> n[2] == 104 || n[2] == 72;
  }

  // ---- How many properties ----

  /**
   A declaration that is accepted on its own joins a table exactly if its property was inherited there and
   not declared before, or is new and the table has fewer than 64.
   */
  lemma RoomForOneMore(ps: Table, parent: Env, d: Declaration)
    requires AddDeclaration([], parent, d).Ready? && Distinct(ps) && |ps| <= 64
    ensures |AddDeclaration([], parent, d).table| == 1
    ensures var p, r := AddDeclaration([], parent, d).table[0], AddDeclaration(ps, parent, d);
      && ((exists i :: 0 <= i < |ps| && ps[i].name == p.name) ==>
            (r.Ready? <==> forall i :: 0 <= i < |ps| && ps[i].name == p.name ==> !ps[i].local))
      && ((forall i :: 0 <= i < |ps| ==> ps[i].name != p.name) ==> (r.Ready? <==> |ps| < 64))
  {
    hide Tokenize, Normalize, IsRevert, Declare, CustomName;
    var p := AddDeclaration([], parent, d).table[0];
    DeclaredName(parent, d);
    IndexOfIs(ps, p.name);
    hide IndexOf;
  }

  lemma DeclaredName(parent: Env, d: Declaration)
    requires AddDeclaration([], parent, d).Ready?
    ensures |AddDeclaration([], parent, d).table| == 1 && Tokenize(d.name).Tokenized?
    ensures CustomName(Tokenize(d.name).tokens) == Some(AddDeclaration([], parent, d).table[0].name)
    ensures Tokenize(d.value).Tokenized? && Normalize(Tokenize(d.value).tokens).Normal?
    ensures !IsRevert(Normalize(Tokenize(d.value).tokens).tokens)
  {
    hide Tokenize, Normalize, IsRevert, CustomName;
  }

  /** More than 64 declarations are too many. */
  lemma DeclarationLimit(ds: seq<Declaration>, parent: Option<Table>, status: Status)
    requires (parent.Some? ==> Snapshot(parent.value)) && Answers(ds, parent, status) && |ds| > 64
    ensures status == Limit
  {
  }
}
