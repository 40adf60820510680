/**
 The Core clock client: one admitted caller at a time opens, queries and closes the device;
 a handle whose close failed is retained and must be closed before anything else is opened.
 Every callback may fail with any error, and threads interleave between atomic operations.
 */
module CoreClock {
  import opened Options

  /** Where a thread stands; the error 0 means success. */
  datatype Pc =
    | Check | Enter | Recheck | Probe | Drain | Open
    | Ask(handle: nat) | Close(handle: nat, error: nat) | Reprobe | Publish | Leave(error: nat, wrote: bool)
    | StopStore | StopEnter | StopDrain | StopLeave(error: nat)

  datatype Result = QueryReturned(error: nat, wrote: bool) | StopReturned(error: nat)

  const NOT_READY := 21
  const BUSY := 170
  const REVISION_MISMATCH := 1306

  /** `owned` is the set of device handles that exist; `drained` records that a stop has succeeded. */
  datatype Client = Client(admitted: bool, stopped: bool, held: Option<nat>,
                           owned: set<nat>, openings: nat, drained: bool)

  datatype State = State(client: Client, threads: map<nat, Pc>, results: seq<Result>)

  function Initial(): State { State(Client(false, false, None, {}, 0, false), map[], []) }

  // ---- Steps ----

  /** What a thread does next. */
  datatype Next = Goto(pc: Pc) | Return(result: Result)

  datatype Moved = Moved(client: Client, next: Next)

  /** What callbacks answer: an error, the handle an open delivered, and whether a reply made sense. */
  datatype Answer = Answer(error: nat, handle: nat, valid: bool)

  /** Closes the retained handle, if there is one. */
  function DrainHeld(c: Client, error: nat): Client {
    match c.held
    case None => c
    case Some(h) => if error != 0 then c else c.(held := None, owned := c.owned - {h})
  }

  function DrainError(c: Client, error: nat): nat { if c.held.None? then 0 else error }

  function Move(c: Client, pc: Pc, a: Answer): Moved {
    match pc
    case Check => Moved(c, if c.stopped then Return(QueryReturned(NOT_READY, false)) else Goto(Enter))
    case Enter =>
      if c.admitted then Moved(c, Return(QueryReturned(BUSY, false))) else Moved(c.(admitted := true), Goto(Recheck))
    case Recheck => Moved(c, Goto(if c.stopped then Leave(NOT_READY, false) else Probe))
    case Probe => Moved(c, Goto(if a.error != 0 then Leave(a.error, false) else Drain))
    case Drain =>
      if DrainError(c, a.error) != 0 then Moved(c, Goto(Leave(a.error, false))) else Moved(DrainHeld(c, a.error), Goto(Open))
    case Open =>
      if a.error != 0 then Moved(c, Goto(Leave(a.error, false)))
      else Moved(c.(owned := c.owned + {a.handle}, openings := c.openings + 1), Goto(Ask(a.handle)))
    case Ask(h) => Moved(c, Goto(Close(h, if a.error != 0 then a.error else if a.valid then 0 else REVISION_MISMATCH)))
    case Close(h, asked) =>
      var closed := if a.error == 0 then c.(owned := c.owned - {h}) else c.(held := Some(h));
      var total := if asked != 0 then asked else a.error;
      Moved(closed, Goto(if total != 0 then Leave(total, false) else Reprobe))
    case Reprobe => Moved(c, Goto(if a.error != 0 then Leave(a.error, false) else Publish))
    case Publish => Moved(c, Goto(Leave(0, true)))
    case Leave(e, wrote) => Moved(c.(admitted := false), Return(QueryReturned(e, wrote)))
    case StopStore => Moved(c.(stopped := true), Goto(StopEnter))
    case StopEnter =>
      if c.admitted then Moved(c, Return(StopReturned(BUSY))) else Moved(c.(admitted := true), Goto(StopDrain))
    case StopDrain => Moved(DrainHeld(c, a.error), Goto(StopLeave(DrainError(c, a.error))))
    case StopLeave(e) => Moved(c.(admitted := false, drained := c.drained || e == 0), Return(StopReturned(e)))
  }

  datatype Op = StartQuery(t: nat) | StartStop(t: nat) | Step(t: nat, answer: Answer)

  ghost predicate Enabled(s: State, op: Op) {
    match op
    case Step(t, a) => t in s.threads && a.handle !in s.client.owned
    case _ => op.t !in s.threads
  }

  function Do(s: State, op: Op): State
    requires op.Step? ==> op.t in s.threads
  {
    match op
    case StartQuery(t) => s.(threads := s.threads[t := Check])
    case StartStop(t) => s.(threads := s.threads[t := StopStore])
    case Step(t, a) =>
      var m := Move(s.client, s.threads[t], a);
      match m.next
      case Goto(pc) => State(m.client, s.threads[t := pc], s.results)
      case Return(r) => State(m.client, s.threads - {t}, s.results + [r])
  }

  // ---- Invariant ----

  predicate Inside(pc: Pc) { !pc.Check? && !pc.Enter? && !pc.StopStore? && !pc.StopEnter? }

  predicate InsideAt(s: State, t: nat) { t in s.threads && Inside(s.threads[t]) }

  /** At most one thread is admitted, and the flag says whether one is. */
  ghost predicate Admission(s: State) {
    && (forall t, u :: InsideAt(s, t) && InsideAt(s, u) ==> t == u)
    && (s.client.admitted <==> exists t :: InsideAt(s, t))
  }

  function Held(c: Client): set<nat> { match c.held case None => {} case Some(h) => {h} }

  predicate HasDevice(pc: Pc) { pc.Ask? || pc.Close? }

  /** What may be owned while a thread is at `pc`. */
  predicate Ownership(c: Client, pc: Pc) {
    && (pc.Open? || HasDevice(pc) ==> c.held.None?)
    && (HasDevice(pc) ==> c.owned == {pc.handle})
    && (Inside(pc) && !HasDevice(pc) ==> c.owned == Held(c))
  }

  /** What a stop promises while a thread is at `pc`: after it nobody gets past the second look at the flag. */
  predicate Stopping(c: Client, pc: Pc) {
    && (pc.StopEnter? || pc.StopDrain? || pc.StopLeave? ==> c.stopped)
    && (pc.StopLeave? && pc.error == 0 ==> c.held.None?)
    && (c.drained && Inside(pc) ==> pc.Recheck? || pc.Leave? || pc.StopDrain? || pc.StopLeave?)
  }

  predicate Drained(c: Client) {
    c.drained ==> c.stopped && c.owned == {} && c.held.None?
  }

  predicate Honest(pc: Pc) { pc.Leave? ==> (pc.wrote <==> pc.error == 0) }

  predicate HonestResult(r: Result) { r.QueryReturned? ==> (r.wrote <==> r.error == 0) }

  ghost predicate ThreadsOk(s: State) {
    forall t :: t in s.threads ==>
      Ownership(s.client, s.threads[t]) && Stopping(s.client, s.threads[t]) && Honest(s.threads[t])
  }

  ghost predicate Inv(s: State) {
    && Admission(s) && ThreadsOk(s) && Drained(s.client)
    && (!s.client.admitted ==> s.client.owned == Held(s.client))
    && forall i :: 0 <= i < |s.results| ==> HonestResult(s.results[i])
  }

  /** One move of one thread, on the client alone. */
  lemma MoveKeeps(c: Client, pc: Pc, a: Answer)
    requires Ownership(c, pc) && Stopping(c, pc) && Honest(pc) && Drained(c)
    requires (Inside(pc) ==> c.admitted) && (!c.admitted ==> c.owned == Held(c)) && a.handle !in c.owned
    ensures var m := Move(c, pc, a);
      && Drained(m.client)
      && (m.next.Goto? ==> Ownership(m.client, m.next.pc) && Stopping(m.client, m.next.pc) && Honest(m.next.pc))
      && (m.next.Return? ==> HonestResult(m.next.result))
      && (m.next.Return? || !Inside(m.next.pc) ==> Inside(pc) || m.client.admitted == c.admitted)
      && (m.next.Return? || !Inside(m.next.pc) ==> Inside(pc) ==> !m.client.admitted)
      && (m.next.Goto? && Inside(m.next.pc) ==> m.client.admitted && (Inside(pc) || !c.admitted))
      && (!m.client.admitted ==> m.client.owned == Held(m.client))
  {
  }

  /** A move of an outsider leaves what the admitted thread relies on alone. */
  lemma MoveSparesOthers(c: Client, pc: Pc, a: Answer, other: Pc)
    requires Ownership(c, other) && Stopping(c, other) && Honest(other)
    requires Inside(pc) ==> !Inside(other)
    ensures var c' := Move(c, pc, a).client; Ownership(c', other) && Stopping(c', other)
  {
  }

  lemma StepAdmission(s: State, op: Op)
    requires Inv(s) && Enabled(s, op)
    ensures Admission(Do(s, op))
  {
    hide Move, Ownership, Stopping, Drained;
    var s', t := Do(s, op), op.t;
    if op.Step? {
      assert InsideAt(s, t) ==> s.client.admitted;
      MoveKeeps(s.client, s.threads[t], op.answer);
    }
    assert forall u :: u != t ==> InsideAt(s', u) == InsideAt(s, u);
    assert s'.client.admitted && !InsideAt(s', t) ==> s.client.admitted && !InsideAt(s, t);
    if s.client.admitted {
      var u :| InsideAt(s, u);
      assert forall v :: InsideAt(s, v) ==> v == u;
      if u != t {
        assert !InsideAt(s, t) && !InsideAt(s', t);
        assert InsideAt(s', u) && s'.client.admitted;
      } else {
        assert forall v :: InsideAt(s', v) ==> v == t;
        assert s'.client.admitted <==> InsideAt(s', t);
      }
    } else {
      assert forall v :: !InsideAt(s, v);
      assert s'.client.admitted <==> InsideAt(s', t);
    }
  }

  lemma StepThreads(s: State, op: Op)
    requires Inv(s) && Enabled(s, op)
    ensures ThreadsOk(Do(s, op))
  {
    hide Move, Ownership, Stopping;
    var s', t := Do(s, op), op.t;
    if op.Step? {
      assert InsideAt(s, t) ==> s.client.admitted;
      MoveKeeps(s.client, s.threads[t], op.answer);
      forall u | u in s'.threads && u != t ensures Ownership(s'.client, s.threads[u]) && Stopping(s'.client, s.threads[u]) {
        assert InsideAt(s, t) && InsideAt(s, u) ==> u == t;
        MoveSparesOthers(s.client, s.threads[t], op.answer, s.threads[u]);
      }
    } else {
      StartsOk(s.client);
    }
  }

  lemma StartsOk(c: Client)
    ensures Ownership(c, Check) && Ownership(c, StopStore) && Stopping(c, Check) && Stopping(c, StopStore)
  {
  }

  lemma StepKeeps(s: State, op: Op)
    requires Inv(s) && Enabled(s, op)
    ensures Inv(Do(s, op))
  {
    hide Move, Ownership, Stopping, Drained;
    StepAdmission(s, op);
    StepThreads(s, op);
    if op.Step? {
      assert InsideAt(s, op.t) ==> s.client.admitted;
      MoveKeeps(s.client, s.threads[op.t], op.answer);
    }
  }

  /** Something is opened only when nothing is owned, and never after a successful stop. */
  lemma OpensOnlyWhenFree(s: State, op: Op)
    requires Inv(s) && Enabled(s, op)
    ensures var c, c' := s.client, Do(s, op).client;
      && (c'.openings != c.openings ==> c.owned == {} && c.held.None? && !c.drained && |c'.owned| == 1)
      && (c.drained ==> c'.drained)
  {
    if op.Step? {
      assert Ownership(s.client, s.threads[op.t]) && Stopping(s.client, s.threads[op.t]);
    }
  }

  // ---- Runs ----

  ghost predicate Run(ss: seq<State>, ops: seq<Op>) {
    && |ss| == |ops| + 1 && ss[0] == Initial()
    && forall i :: 0 <= i < |ops| ==> Enabled(ss[i], ops[i]) && ss[i + 1] == Do(ss[i], ops[i])
  }

  lemma {:induction false} RunKeeps(ss: seq<State>, ops: seq<Op>, n: nat)
    requires Run(ss, ops) && n <= |ops|
    ensures Inv(ss[n])
  {
    hide Do, Inv;
    if n == 0 {
      InitialInv();
    } else {
      RunKeeps(ss, ops, n - 1);
      StepKeeps(ss[n - 1], ops[n - 1]);
    }
  }

  lemma InitialInv()
    ensures Inv(Initial())
  {
  }

  /** In every run at most one handle is owned, a retained handle is the only one, and outputs mean success. */
  lemma OwnershipHolds(ss: seq<State>, ops: seq<Op>, n: nat)
    requires Run(ss, ops) && n <= |ops|
    ensures |ss[n].client.owned| <= 1
    ensures ss[n].client.held.Some? ==> ss[n].client.owned == {ss[n].client.held.value}
    ensures forall i :: 0 <= i < |ss[n].results| ==> HonestResult(ss[n].results[i])
  {
    hide Do;
    RunKeeps(ss, ops, n);
    var s := ss[n];
    if s.client.admitted {
      var t :| InsideAt(s, t);
      assert Ownership(s.client, s.threads[t]);
    }
  }

  lemma DrainedStep(s: State, op: Op)
    requires Enabled(s, op) && (s.client.drained <==> StopReturned(0) in s.results)
    ensures Do(s, op).client.drained <==> StopReturned(0) in Do(s, op).results
  {
  }

  /** The mark `drained` stands for a stop that has returned 0. */
  lemma {:induction false} DrainedIsStopZero(ss: seq<State>, ops: seq<Op>, n: nat)
    requires Run(ss, ops) && n <= |ops|
    ensures ss[n].client.drained <==> StopReturned(0) in ss[n].results
  {
    hide Do, Enabled;
    if n > 0 {
      DrainedIsStopZero(ss, ops, n - 1);
      DrainedStep(ss[n - 1], ops[n - 1]);
    }
  }

  lemma {:induction false} DrainedIsFinal(ss: seq<State>, ops: seq<Op>, m: nat, n: nat)
    requires Run(ss, ops) && m <= n <= |ops| && ss[m].client.drained
    ensures var c := ss[n].client; c.drained && c.owned == {} && c.held.None? && c.openings == ss[m].client.openings
    decreases n - m
  {
    hide Do, Admission, ThreadsOk;
    RunKeeps(ss, ops, n);
    if m < n {
      DrainedIsFinal(ss, ops, m, n - 1);
      RunKeeps(ss, ops, n - 1);
      OpensOnlyWhenFree(ss[n - 1], ops[n - 1]);
    }
  }

  /** Once some stop has returned 0, nothing is owned or retained and nothing is ever opened again. */
  lemma StopIsFinal(ss: seq<State>, ops: seq<Op>, m: nat, n: nat)
    requires Run(ss, ops) && m <= n <= |ops| && StopReturned(0) in ss[m].results
    ensures var c := ss[n].client; c.owned == {} && c.held.None? && c.openings == ss[m].client.openings
  {
    DrainedIsStopZero(ss, ops, m);
    DrainedIsFinal(ss, ops, m, n);
  }
}
