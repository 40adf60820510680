/**
 The property table of one evaluation: phases, cycle marks, and what it means for the table
 to be consistent.
 */
module CssProperties {
  import opened Options
  import opened FiniteSets
  import opened CssBrackets
  import opened CssSubstitution
  import opened CssNormalize
  import opened CssRoom

  datatype Phase = Fresh | Busy | Finished

  /** `fixed` properties were inherited or set by a CSS-wide keyword; the others carry a specified value. */
  datatype Property = Property(name: Name, specified: Stream, fixed: bool, local: bool,
                               phase: Phase, value: Value, cycle: bool)

  type Table = seq<Property>

  ghost predicate Distinct(ps: Table) {
    forall i, j :: 0 <= i < j < |ps| ==> ps[i].name != ps[j].name
  }

  /** The values of the finished properties. */
  ghost function EnvOf(ps: Table): Env
    requires Distinct(ps)
  {
    map i | 0 <= i < |ps| && ps[i].phase == Finished :: ps[i].name := ps[i].value
  }

  lemma EnvAt(ps: Table, i: nat)
    requires Distinct(ps) && i < |ps|
    ensures ps[i].name in EnvOf(ps) <==> ps[i].phase == Finished
    ensures ps[i].phase == Finished ==> EnvOf(ps)[ps[i].name] == ps[i].value
  {
  }

  ghost predicate Declared(ps: Table, n: Name) { exists i :: 0 <= i < |ps| && ps[i].name == n }

  /** Every property that the substitution looks at has its final value. */
  ghost predicate Ready(ps: Table, names: set<Name>)
    requires Distinct(ps)
  {
    forall n :: n in names && Declared(ps, n) ==> n in EnvOf(ps)
  }

  ghost predicate Settled(ps: Table, ts: Stream)
    requires Distinct(ps)
  {
    Ready(ps, References(EnvOf(ps), ts))
  }

  ghost predicate CallSettled(ps: Table, inner: Stream, comma: Option<nat>)
    requires Distinct(ps)
  {
    Ready(ps, CallReferences(EnvOf(ps), inner, comma))
  }

  // ---- How a table changes ----

  /** What evaluation never touches. */
  ghost predicate SameSpecs(a: Table, b: Table) {
    |b| == |a| && forall i :: 0 <= i < |a| ==> b[i].name == a[i].name && b[i].specified == a[i].specified && b[i].fixed == a[i].fixed
  }

  lemma EvolvesSpecs(a: Table, b: Table)
    requires Evolves(a, b)
    ensures SameSpecs(a, b)
  {
    forall i | 0 <= i < |a| ensures b[i].name == a[i].name && b[i].specified == a[i].specified && b[i].fixed == a[i].fixed {
      assert Evolved(a[i], b[i]);
    }
  }

  ghost predicate Evolved(p: Property, q: Property) {
    && q.name == p.name && q.specified == p.specified && q.fixed == p.fixed && q.local == p.local
    && (p.phase == Finished ==> q == p)
    && (p.phase == Busy ==> q.phase == Busy && (p.cycle ==> q.cycle))
    && (p.phase == Fresh ==> q.phase != Busy)
  }

  /** Finished properties stay as they are, busy ones stay busy and may gain a cycle mark. */
  ghost predicate Evolves(a: Table, b: Table) {
    |b| == |a| && forall i :: 0 <= i < |a| ==> Evolved(a[i], b[i])
  }

  lemma EvolvesTransitive(a: Table, b: Table, c: Table)
    requires Evolves(a, b) && Evolves(b, c)
    ensures Evolves(a, c)
  {
    forall i | 0 <= i < |a| ensures Evolved(a[i], c[i]) {
      assert Evolved(a[i], b[i]) && Evolved(b[i], c[i]);
    }
  }

  lemma EvolvesSelf(a: Table)
    ensures Evolves(a, a)
  {
  }

  ghost predicate SameNames(a: Table, b: Table) {
    |b| == |a| && forall i :: 0 <= i < |a| ==> b[i].name == a[i].name
  }

  ghost predicate KeepsFinished(a: Table, b: Table) {
    SameNames(a, b) && forall i :: 0 <= i < |a| && a[i].phase == Finished ==> b[i].phase == Finished && b[i].value == a[i].value
  }

  lemma EvolvesKeeps(a: Table, b: Table)
    requires Evolves(a, b)
    ensures KeepsFinished(a, b)
  {
    forall i | 0 <= i < |a| ensures b[i].name == a[i].name {
      assert Evolved(a[i], b[i]);
    }
    forall i | 0 <= i < |a| && a[i].phase == Finished ensures b[i].phase == Finished && b[i].value == a[i].value {
      assert Evolved(a[i], b[i]);
    }
  }

  lemma DistinctKept(a: Table, b: Table)
    requires Distinct(a) && SameNames(a, b)
    ensures Distinct(b) && forall n :: Declared(a, n) <==> Declared(b, n)
  {
    forall n ensures Declared(a, n) <==> Declared(b, n) {
      if Declared(a, n) {
        var i :| 0 <= i < |a| && a[i].name == n;
        assert b[i].name == n;
      }
      if Declared(b, n) {
        var i :| 0 <= i < |b| && b[i].name == n;
        assert a[i].name == n;
      }
    }
  }

  lemma ReadyAgrees(a: Table, b: Table, names: set<Name>)
    requires Distinct(a) && KeepsFinished(a, b) && Ready(a, names)
    ensures Distinct(b) && Agree(EnvOf(a), EnvOf(b), names) && Ready(b, names)
  {
    DistinctKept(a, b);
    forall n | n in names ensures ValueIn(EnvOf(b), n) == ValueIn(EnvOf(a), n) && (Declared(b, n) ==> n in EnvOf(b)) {
      if Declared(a, n) {
        var i :| 0 <= i < |a| && a[i].name == n;
        EnvAt(a, i);
        EnvAt(b, i);
      }
    }
  }

  /** What was settled stays settled, with the same result. */
  lemma SettledKept(a: Table, b: Table, ts: Stream)
    requires Distinct(a) && KeepsFinished(a, b) && Settled(a, ts)
    ensures Distinct(b) && Settled(b, ts) && Substitute(EnvOf(b), ts) == Substitute(EnvOf(a), ts)
    ensures References(EnvOf(b), ts) == References(EnvOf(a), ts)
  {
    ReadyAgrees(a, b, References(EnvOf(a), ts));
    SubstituteLocal(EnvOf(a), EnvOf(b), ts);
  }

  // ---- Termination ----

  ghost function Pending(ps: Table): set<nat> { set i: nat | i < |ps| && ps[i].phase == Fresh }

  lemma PendingShrinks(a: Table, b: Table)
    requires Evolves(a, b)
    ensures |Pending(b)| <= |Pending(a)|
  {
    forall i: nat | i in Pending(b) ensures i in Pending(a) {
      assert Evolved(a[i], b[i]);
    }
    SubsetSize(Pending(b), Pending(a));
  }

  // ---- Consistency ----

  /** A finished property is cycle-marked and invalid, or its value follows from the others' final values. */
  ghost predicate PropertyOk(ps: Table, parent: Env, i: nat)
    requires Distinct(ps) && i < |ps|
  {
    var p := ps[i];
    && (p.fixed ==> p.phase == Finished && !p.cycle)
    && (!p.fixed ==> Balanced(p.specified))
    && (p.phase == Finished && p.value.Valid? ==> Kept(p.value.tokens))
    && (p.phase == Fresh ==> !p.cycle)
    && (p.phase == Finished && !p.fixed ==>
          if p.cycle then p.value == Invalid
          else Settled(ps, p.specified) && Settle(parent, p.name, Substitute(EnvOf(ps), p.specified)) == Some(p.value))
  }

  ghost predicate TableOk(ps: Table, parent: Env) {
    Distinct(ps) && KeptValues(parent) && forall i: nat :: i < |ps| ==> PropertyOk(ps, parent, i)
  }

  lemma PlainEnv(ps: Table, parent: Env)
    requires TableOk(ps, parent)
    ensures PlainValues(EnvOf(ps))
  {
    hide Settled, Plain, Settle, Compact, Normalize, IsWide;
    forall n | n in EnvOf(ps) && EnvOf(ps)[n].Valid? ensures Plain(EnvOf(ps)[n].tokens) {
      var i: nat :| i < |ps| && ps[i].phase == Finished && ps[i].name == n;
      assert PropertyOk(ps, parent, i);
      EnvAt(ps, i);
    }
  }

  /** Properties that did not change remain consistent while others finish. */
  lemma PropertyKept(a: Table, b: Table, parent: Env, i: nat)
    requires Distinct(a) && KeepsFinished(a, b) && i < |a| && PropertyOk(a, parent, i) && b[i] == a[i]
    ensures Distinct(b) && PropertyOk(b, parent, i)
  {
    hide Settle, Settled;
    DistinctKept(a, b);
    var p := a[i];
    if p.phase == Finished && !p.fixed && !p.cycle {
      SettledKept(a, b, p.specified);
    }
  }

  // ---- The meaning of an acyclic table ----

  /** Values for all properties, and a rank that goes down along every reference. */
  datatype Meaning = Meaning(env: Env, rank: Name -> nat)

  ghost predicate Below(ps: Table, m: Meaning, names: set<Name>, bound: nat) {
    forall n :: n in names && Declared(ps, n) ==> m.rank(n) < bound
  }

  /** Each value is the substitution of its specified value under all the values. */
  ghost predicate Means(ps: Table, parent: Env, m: Meaning) {
    && (forall n :: n in m.env <==> Declared(ps, n))
    && forall i :: 0 <= i < |ps| ==> PropertyMeans(ps, parent, m, ps[i])
  }

  ghost predicate PropertyMeans(ps: Table, parent: Env, m: Meaning, p: Property) {
    && p.name in m.env
    && (p.fixed ==> m.env[p.name] == p.value)
    && (!p.fixed ==> && Settle(parent, p.name, Substitute(m.env, p.specified)) == Some(m.env[p.name])
                     && Below(ps, m, References(m.env, p.specified), m.rank(p.name)))
  }

  /** Nothing is marked; finished values are the meaning's and were found within the limits. */
  ghost predicate Follows(ps: Table, m: Meaning) {
    forall i :: 0 <= i < |ps| ==> !ps[i].cycle && (ps[i].phase == Finished ==> FollowsAt(m, ps[i]))
  }

  ghost predicate FollowsAt(m: Meaning, p: Property) {
    p.name in m.env && p.value == m.env[p.name] && HasRoom(m, p)
  }

  ghost predicate HasRoom(m: Meaning, p: Property) { p.fixed || Room(m.env, p.specified, [], 0) }

  /** Under the meaning, every property can be evaluated within the limits. */
  ghost predicate Roomy(ps: Table, m: Meaning) {
    |ps| <= PROPERTY_MAX && forall i :: 0 <= i < |ps| ==> HasRoom(m, ps[i])
  }

  lemma RoomyKept(a: Table, b: Table, m: Meaning)
    requires SameSpecs(a, b)
    ensures Roomy(a, m) <==> Roomy(b, m)
  {
    hide Room;
    if Roomy(b, m) {
      forall i | 0 <= i < |a| ensures HasRoom(m, a[i]) {
        assert HasRoom(m, b[i]);
      }
    }
    if Roomy(a, m) {
      forall i | 0 <= i < |b| ensures HasRoom(m, b[i]) {
        assert HasRoom(m, a[i]);
      }
    }
  }

  ghost predicate StackAbove(ps: Table, stack: seq<nat>, m: Meaning, bound: nat) {
    forall i :: i in stack ==> i < |ps| && m.rank(ps[i].name) >= bound
  }

  /** Evaluation runs under a meaning: what is finished agrees with it, and the stack lies above the bound. */
  ghost predicate Guided(ps: Table, stack: seq<nat>, parent: Env, m: Option<Meaning>, bound: nat) {
    m.Some? ==> Means(ps, parent, m.value) && Follows(ps, m.value) && StackAbove(ps, stack, m.value, bound)
  }

  /** On settled text the finished values and the meaning give the same result. */
  lemma SameUnderMeaning(ps: Table, parent: Env, m: Meaning, ts: Stream)
    requires Distinct(ps) && Means(ps, parent, m) && Follows(ps, m) && Settled(ps, ts)
    ensures Substitute(m.env, ts) == Substitute(EnvOf(ps), ts) && References(m.env, ts) == References(EnvOf(ps), ts)
  {
    hide Substitute, References, PropertyMeans;
    forall n | n in References(EnvOf(ps), ts) ensures ValueIn(m.env, n) == ValueIn(EnvOf(ps), n) {
      if Declared(ps, n) {
        var i :| 0 <= i < |ps| && ps[i].name == n;
        EnvAt(ps, i);
      }
    }
    SubstituteLocal(EnvOf(ps), m.env, ts);
  }

  // ---- The order in which properties finish ----

  ghost function RankBound(ps: Table, rank: Name -> nat): (b: nat)
    ensures forall i :: 0 <= i < |ps| ==> rank(ps[i].name) < b
  {
    if ps == [] then 0
    else
      var rest := RankBound(ps[..|ps| - 1], rank);
      var r := rank(ps[|ps| - 1].name) + 1;
      if rest < r then r else rest
  }

  ghost predicate RankedAt(ps: Table, rank: Name -> nat, i: nat)
    requires Distinct(ps) && i < |ps|
  {
    ps[i].phase == Finished && !ps[i].fixed && !ps[i].cycle ==>
      forall n :: n in References(EnvOf(ps), ps[i].specified) && Declared(ps, n) ==> rank(n) < rank(ps[i].name)
  }

  ghost predicate Ranked(ps: Table, rank: Name -> nat)
    requires Distinct(ps)
  {
    forall i: nat :: i < |ps| ==> RankedAt(ps, rank, i)
  }

  /** Finished, unmarked properties can be ranked so that each looks only at lower ones. */
  ghost predicate Orderly(ps: Table) {
    Distinct(ps) && exists rank: Name -> nat :: Ranked(ps, rank)
  }

  lemma ReferenceIsFinished(ps: Table, ts: Stream, n: Name, ix: nat)
    requires Distinct(ps) && Settled(ps, ts) && n in References(EnvOf(ps), ts) && Declared(ps, n)
    requires ix < |ps| && ps[ix].phase != Finished
    ensures n != ps[ix].name && exists k :: 0 <= k < |ps| && ps[k].name == n
  {
    hide References;
    EnvAt(ps, ix);
  }

  /** At most one property finishes at a time; it takes the highest rank. */
  lemma OrderlyStep(a: Table, b: Table, parent: Env, ix: nat)
    requires TableOk(a, parent) && Orderly(a) && KeepsFinished(a, b) && ix < |a| && a[ix].phase != Finished
    requires forall i :: 0 <= i < |a| && i != ix && b[i].phase == Finished ==> b[i] == a[i]
    requires b[ix].phase == Finished && !b[ix].cycle ==> b[ix].specified == a[ix].specified && Settled(a, a[ix].specified)
    ensures Orderly(b)
  {
    hide Settle, Substitute, References, Plain;
    DistinctKept(a, b);
    var rank: Name -> nat :| Ranked(a, rank);
    var last, top := a[ix].name, RankBound(a, rank);
    var rank' := (n: Name) => if n == last then top else rank(n);
    forall i: nat | i < |b| ensures RankedAt(b, rank', i) {
      if b[i].phase == Finished && !b[i].fixed && !b[i].cycle {
        assert PropertyOk(a, parent, i) && RankedAt(a, rank, i);
        var ts := a[i].specified;
        SettledKept(a, b, ts);
        forall n | n in References(EnvOf(b), b[i].specified) && Declared(b, n) ensures rank'(n) < rank'(b[i].name) {
          ReferenceIsFinished(a, ts, n, ix);
        }
      }
    }
    assert Ranked(b, rank');
  }

  ghost predicate NoCycle(ps: Table) { forall i :: 0 <= i < |ps| ==> !ps[i].cycle }

  ghost predicate HasMeaning(ps: Table, parent: Env) { exists m :: Means(ps, parent, m) }
}
