/**
 One-time initialization: a single atomic word, any number of threads, and the calls
 `begin`, `complete` and `execute` broken into their atomic operations.
 */
module InitOnce {
  import opened Options

  const EMPTY := 0
  const SYNC := 1
  const ASYNC := 3

  /** The low two bits of a done word are 2; the rest is the published context. */
  predicate IsDone(word: nat) { word % 4 == 2 }

  function DoneWord(context: nat): nat { context + 2 }

  datatype Status = Ok | NotReady | Invalid | Conflict | CallbackFailed

  datatype Flags = Flags(check: bool, async: bool, failed: bool, unknown: bool)

  const NO_FLAGS := Flags(false, false, false, false)

  /** Where a thread stands between two atomic operations. */
  datatype Pc =
    | Loading(flags: Flags, executes: bool, canYield: bool)
    | SawEmpty(flags: Flags, executes: bool, canYield: bool)
    | Holding                        // `begin` answered "pending" to a synchronous caller
    | Running                        // `execute` is inside its callback
    | Publishing(context: nat)       // the callback succeeded
    | Resetting                      // the callback failed
    | Rescuing                       // the callback's context was misaligned

  /** What a call answered; `context` is meaningful when it answered Ok and not pending, as only `begin` and `execute` do. */
  datatype Answer = Answer(thread: nat, status: Status, pending: bool, context: nat)

  datatype State = State(word: nat, threads: map<nat, Pc>, published: seq<nat>, answers: seq<Answer>)

  function Initial(): State { State(EMPTY, map[], [], []) }

  datatype Op =
    | Begin(t: nat, flags: Flags, canYield: bool)
    | Execute(t: nat, canYield: bool)
    | Load(t: nat)
    | Swap(t: nat)
    | CallbackReturns(t: nat, ok: bool, context: nat)
    | Finish(t: nat)
    | Complete(t: nat, flags: Flags, context: nat)

  predicate Enabled(s: State, op: Op) {
    match op
    case Begin(t, _, _) => t !in s.threads
    case Execute(t, _) => t !in s.threads
    case Load(t) => t in s.threads && s.threads[t].Loading?
    case Swap(t) => t in s.threads && s.threads[t].SawEmpty?
    case CallbackReturns(t, _, _) => t in s.threads && s.threads[t].Running?
    case Finish(t) => t in s.threads && (s.threads[t].Publishing? || s.threads[t].Resetting? || s.threads[t].Rescuing?)
    case Complete(t, _, _) => t in s.threads ==> s.threads[t].Holding?
  }

  function Goto(s: State, t: nat, pc: Pc): State { s.(threads := s.threads[t := pc]) }

  function Return(s: State, a: Answer): State {
    s.(threads := s.threads - {a.thread}, answers := s.answers + [a])
  }

  function Fail(s: State, t: nat, status: Status): State { Return(s, Answer(t, status, false, 0)) }

  /** One pass of the loop in `begin` up to its atomic load. */
  function AfterLoad(s: State, t: nat, flags: Flags, executes: bool, canYield: bool): State {
    if IsDone(s.word) then Return(s, Answer(t, Ok, false, s.word - 2))
    else if flags.check then Fail(s, t, NotReady)
    else if s.word == EMPTY then Goto(s, t, SawEmpty(flags, executes, canYield))
    else if s.word == ASYNC then
      if !flags.async then Fail(s, t, Conflict) else Return(s, Answer(t, Ok, true, 0))
    else if s.word == SYNC then
      if flags.async then Fail(s, t, Conflict) else if !canYield then Fail(s, t, Invalid) else s
    else Fail(s, t, Invalid)
  }

  /** The compare-and-swap from the empty word. */
  function AfterSwap(s: State, t: nat, flags: Flags, executes: bool, canYield: bool): State {
    if s.word != EMPTY then Goto(s, t, Loading(flags, executes, canYield))
    else
      var claimed := s.(word := if flags.async then ASYNC else SYNC);
      if flags.async then Return(claimed, Answer(t, Ok, true, 0))
      else if executes then Goto(claimed, t, Running)
      else Goto(claimed, t, Holding).(answers := s.answers + [Answer(t, Ok, true, 0)])
  }

  /** The compare-and-swap of `complete`; `context` is absent when the attempt is reset. */
  function CompleteWord(s: State, expected: nat, context: Option<nat>): State {
    if s.word != expected then s
    else match context
         case None => s.(word := EMPTY)
         case Some(c) => s.(word := DoneWord(c), published := s.published + [c])
  }

  predicate BadComplete(flags: Flags, context: nat) {
    flags.unknown || flags.check || (flags.async && flags.failed) || context % 4 != 0 || (flags.failed && context != 0)
  }

  function Do(s: State, op: Op): State
    requires Enabled(s, op)
  {
    match op
    case Begin(t, flags, canYield) =>
      if flags.unknown || flags.failed || (flags.check && flags.async) then Fail(s, t, Invalid)
      else Goto(s, t, Loading(flags, false, canYield))
    case Execute(t, canYield) => Goto(s, t, Loading(NO_FLAGS, true, canYield))
    case Load(t) =>
      var pc := s.threads[t];
      AfterLoad(s, t, pc.flags, pc.executes, pc.canYield)
    case Swap(t) =>
      var pc := s.threads[t];
      AfterSwap(s, t, pc.flags, pc.executes, pc.canYield)
    case CallbackReturns(t, ok, context) => Goto(s, t, if ok then Publishing(context) else Resetting)
    case Finish(t) =>
      (match s.threads[t]
       case Publishing(c) =>
         if c % 4 != 0 then Goto(s, t, Rescuing)
         else if s.word == SYNC then Return(CompleteWord(s, SYNC, Some(c)), Answer(t, Ok, false, c))
         else Fail(s, t, Conflict)
       case Resetting => Fail(CompleteWord(s, SYNC, None), t, if s.word == SYNC then CallbackFailed else Conflict)
       case _ => Fail(CompleteWord(s, SYNC, None), t, Invalid))
    case Complete(t, flags, context) =>
      if BadComplete(flags, context) then s.(answers := s.answers + [Answer(t, Invalid, false, 0)])
      else
        var expected := if flags.async then ASYNC else SYNC;
        var done := CompleteWord(s, expected, if flags.failed then None else Some(context));
        var status := if s.word == expected then Ok else Conflict;
        if flags.async then done.(answers := s.answers + [Answer(t, status, true, 0)])
        else Return(done, Answer(t, status, true, 0))
  }

  // ---- Publication, whatever the callers do ----

  ghost predicate Published(s: State) {
    && (s.word == EMPTY || s.word == SYNC || s.word == ASYNC || IsDone(s.word))
    && s.published == if IsDone(s.word) then [s.word - 2] else []
  }

  /** Publication is final, and it happens at most once. */
  lemma PublishedKept(s: State, op: Op)
    requires Published(s) && Enabled(s, op)
    ensures Published(Do(s, op)) && |Do(s, op).published| <= 1
    ensures IsDone(s.word) ==> Do(s, op).word == s.word && Do(s, op).published == s.published
    ensures s.published <= Do(s, op).published
  {
    if op.Complete? && !BadComplete(op.flags, op.context) {
      assert op.context % 4 == 0;
    }
  }

  /** Every answer "not pending" carries the published context. */
  ghost predicate AnswersOk(s: State) {
    forall i :: 0 <= i < |s.answers| ==> AnswerOk(s, s.answers[i])
  }

  ghost predicate Completed(a: Answer) { a.status == Ok && !a.pending }

  ghost predicate AnswerOk(s: State, a: Answer) {
    Completed(a) ==> s.published == [a.context]
  }

  lemma NewAnswer(s: State, op: Op)
    requires Published(s) && Enabled(s, op)
    ensures var s' := Do(s, op);
      s'.answers == s.answers || (|s'.answers| == |s.answers| + 1 && s'.answers[..|s.answers|] == s.answers && AnswerOk(s', s'.answers[|s.answers|]))
  {
  }

  lemma AnswersKept(s: State, op: Op)
    requires Published(s) && Enabled(s, op) && AnswersOk(s)
    ensures AnswersOk(Do(s, op))
  {
    PublishedKept(s, op);
    var s' := Do(s, op);
    NewAnswer(s, op);
    hide Do, Enabled;
    forall i | 0 <= i < |s'.answers| ensures AnswerOk(s', s'.answers[i]) {
      if i < |s.answers| {
        assert s'.answers[i] == s.answers[i] && AnswerOk(s, s.answers[i]);
      }
    }
  }

  /** Once the word is done, no call is ever told to initialize. */
  lemma NobodyPendingAfterDone(s: State, op: Op)
    requires Published(s) && Enabled(s, op) && IsDone(s.word)
    ensures forall i :: |s.answers| <= i < |Do(s, op).answers| ==>
              !(Do(s, op).answers[i].status == Ok && Do(s, op).answers[i].pending)
    ensures forall t :: t in Do(s, op).threads && Do(s, op).threads[t].Running? ==> t in s.threads && s.threads[t].Running?
  {
  }

  // ---- Exclusion ----

  /** The thread is between a successful synchronous claim and its completion. */
  predicate Owns(s: State, t: nat) {
    t in s.threads && !s.threads[t].Loading? && !s.threads[t].SawEmpty?
  }

  /** A valid synchronous completion that hits the pending word, by a thread that was not told to initialize. */
  predicate StrangerCompletes(s: State, op: Op) {
    op.Complete? && !op.flags.async && !BadComplete(op.flags, op.context) && s.word == SYNC && !Owns(s, op.t)
  }

  /** At most one owner, and exactly then the word says so. */
  ghost predicate Exclusive(s: State) {
    && (forall t, u :: Owns(s, t) && Owns(s, u) ==> t == u)
    && (s.word == SYNC <==> exists t :: Owns(s, t))
  }

  /** A step breaks exclusion exactly if it is a stranger's completion. */
  lemma ExclusiveIff(s: State, op: Op)
    requires Published(s) && Exclusive(s) && Enabled(s, op)
    ensures Exclusive(Do(s, op)) <==> !StrangerCompletes(s, op)
  {
    if StrangerCompletes(s, op) {
      var t :| Owns(s, t);
      assert Owns(Do(s, op), t) && Do(s, op).word != SYNC;
    } else {
      ExclusiveKept(s, op);
    }
  }

  lemma ExclusiveKept(s: State, op: Op)
    requires Published(s) && Exclusive(s) && Enabled(s, op) && !StrangerCompletes(s, op)
    ensures Exclusive(Do(s, op))
  {
    var s' := Do(s, op);
    forall u | u != op.t ensures Owns(s', u) == Owns(s, u) {
    }
    if s'.word == SYNC && s.word != SYNC {
      assert Owns(s', op.t);
    }
    if Owns(s, op.t) && Owns(s', op.t) {
      assert s.word == SYNC;
    }
    if s.word == SYNC && s'.word == SYNC {
      var t :| Owns(s, t);
      assert t != op.t ==> Owns(s', t);
      if t == op.t {
        assert Owns(s', op.t);
      }
    }
  }

  predicate IsRunning(s: State, t: nat) { t in s.threads && s.threads[t].Running? }

  ghost predicate Overlap(s: State) { exists t, u :: t != u && IsRunning(s, t) && IsRunning(s, u) }

  lemma ExclusiveNoOverlap(s: State)
    requires Exclusive(s)
    ensures !Overlap(s)
  {
    assert forall t :: IsRunning(s, t) ==> Owns(s, t);
  }

  // ---- Runs ----

  ghost predicate Run(ss: seq<State>, ops: seq<Op>) {
    && |ss| == |ops| + 1 && ss[0] == Initial()
    && forall i :: 0 <= i < |ops| ==> Enabled(ss[i], ops[i]) && ss[i + 1] == Do(ss[i], ops[i])
  }

  /** In every run at most one result is published, and every completed answer is that result. */
  lemma {:induction false} RunPublishesOnce(ss: seq<State>, ops: seq<Op>, n: nat)
    requires Run(ss, ops) && n <= |ops|
    ensures Published(ss[n]) && AnswersOk(ss[n]) && |ss[n].published| <= 1
  {
    hide Do, Enabled, AnswersOk;
    if n == 0 {
      NoAnswers();
    } else {
      RunPublishesOnce(ss, ops, n - 1);
      PublishedKept(ss[n - 1], ops[n - 1]);
      AnswersKept(ss[n - 1], ops[n - 1]);
    }
  }

  lemma NoAnswers()
    ensures AnswersOk(Initial())
  {
  }

  /** A done word never changes again. */
  lemma {:induction false} DoneForever(ss: seq<State>, ops: seq<Op>, m: nat, n: nat)
    requires Run(ss, ops) && m <= n <= |ops| && IsDone(ss[m].word)
    ensures ss[n].word == ss[m].word && ss[n].published == ss[m].published == [ss[m].word - 2]
    decreases n - m
  {
    hide Do, Enabled;
    RunPublishesOnce(ss, ops, n);
    RunPublishesOnce(ss, ops, m);
    if m < n {
      DoneForever(ss, ops, m, n - 1);
      RunPublishesOnce(ss, ops, n - 1);
      PublishedKept(ss[n - 1], ops[n - 1]);
    }
  }

  /** After the word is done, a `begin` or `execute` that returns from its loop returns the published context. */
  lemma LaterBeginsReturnTheResult(ss: seq<State>, ops: seq<Op>, m: nat, i: nat)
    requires Run(ss, ops) && m <= i < |ops| && IsDone(ss[m].word)
    requires ops[i].t in ss[i].threads && (ss[i].threads[ops[i].t].Loading? || ss[i].threads[ops[i].t].SawEmpty?)
    ensures var t, s, s' := ops[i].t, ss[i], ss[i + 1];
      if t in s'.threads then s'.answers == s.answers && !Owns(s', t)
      else s'.answers == s.answers + [Answer(t, Ok, false, ss[m].word - 2)]
  {
    DoneForever(ss, ops, m, i);
  }

  /** As long as no stranger completes a pending attempt, no two callbacks overlap. */
  lemma {:induction false} CallbacksDoNotOverlap(ss: seq<State>, ops: seq<Op>, n: nat)
    requires Run(ss, ops) && n <= |ops|
    requires forall i :: 0 <= i < n ==> !StrangerCompletes(ss[i], ops[i])
    ensures Exclusive(ss[n]) && !Overlap(ss[n])
  {
    hide Do, Enabled, StrangerCompletes;
    if n > 0 {
      CallbacksDoNotOverlap(ss, ops, n - 1);
      RunPublishesOnce(ss, ops, n - 1);
      ExclusiveKept(ss[n - 1], ops[n - 1]);
    }
    ExclusiveNoOverlap(ss[n]);
  }

  /** Callers that use `execute` and `begin` but never complete by hand are always safe. */
  lemma ExecuteNeverOverlaps(ss: seq<State>, ops: seq<Op>, n: nat)
    requires Run(ss, ops) && n <= |ops| && forall i :: 0 <= i < n ==> !ops[i].Complete?
    ensures !Overlap(ss[n])
  {
    CallbacksDoNotOverlap(ss, ops, n);
  }

  // ---- What one stranger's completion makes possible ----

  ghost predicate RunFrom(ss: seq<State>, ops: seq<Op>) {
    && |ss| == |ops| + 1
    && forall i :: 0 <= i < |ops| ==> Enabled(ss[i], ops[i]) && ss[i + 1] == Do(ss[i], ops[i]) && !StrangerCompletes(ss[i], ops[i])
  }

  /** Two callbacks can come to overlap although no stranger completes anything from here on. */
  ghost predicate CanOverlap(s: State) {
    exists ss, ops :: RunFrom(ss, ops) && ss[0] == s && Overlap(ss[|ops|])
  }

  lemma OverlapNow(s: State)
    requires Overlap(s)
    ensures CanOverlap(s)
  {
    assert RunFrom([s], []);
  }

  lemma OverlapAfter(s: State, op: Op)
    requires Enabled(s, op) && !StrangerCompletes(s, op) && CanOverlap(Do(s, op))
    ensures CanOverlap(s)
  {
    hide Do, Enabled, StrangerCompletes, Overlap;
    var ss, ops :| RunFrom(ss, ops) && ss[0] == Do(s, op) && Overlap(ss[|ops|]);
    var ss', ops' := [s] + ss, [op] + ops;
    forall i | 0 <= i < |ops'|
      ensures Enabled(ss'[i], ops'[i]) && ss'[i + 1] == Do(ss'[i], ops'[i]) && !StrangerCompletes(ss'[i], ops'[i])
    {
      assert i > 0 ==> ss'[i] == ss[i - 1] && ops'[i] == ops[i - 1];
      assert ss'[i + 1] == ss[i];
    }
    assert RunFrom(ss', ops') && ss'[|ops'|] == ss[|ops|];
  }

  lemma {:induction false} FreshThread(used: set<nat>) returns (u: nat)
    ensures u !in used && forall x :: x in used ==> x < u
  {
    if used == {} {
      u := 0;
    } else {
      var x :| x in used;
      var v := FreshThread(used - {x});
      u := if v <= x then x + 1 else v;
      forall y | y in used ensures y < u {
        assert y == x || y in used - {x};
      }
    }
  }

  /** The state in which thread `u` has started `execute` on an empty word and entered its callback. */
  function Entered(s: State, u: nat): State { Goto(s, u, Running).(word := SYNC) }

  lemma ExecuteEnters(s: State, u: nat)
    requires s.word == EMPTY && u !in s.threads && CanOverlap(Entered(s, u))
    ensures CanOverlap(s)
  {
    var s1 := Do(s, Execute(u, true));
    var s2 := Do(s1, Load(u));
    assert s2.threads == s.threads[u := SawEmpty(NO_FLAGS, true, true)];
    assert Do(s2, Swap(u)).threads == s.threads[u := Running];
    assert Do(s2, Swap(u)) == Entered(s, u);
    OverlapAfter(s2, Swap(u));
    OverlapAfter(s1, Load(u));
    OverlapAfter(s, Execute(u, true));
  }

  lemma EmptyWhileRunning(s: State, t: nat)
    requires s.word == EMPTY && IsRunning(s, t)
    ensures CanOverlap(s)
  {
    var u := FreshThread(s.threads.Keys);
    assert IsRunning(Entered(s, u), t) && IsRunning(Entered(s, u), u);
    OverlapNow(Entered(s, u));
    ExecuteEnters(s, u);
  }

  /** A former owner that may still reset the word, which now belongs to another callback. */
  lemma StaleReset(s: State, t: nat, u: nat)
    requires s.word == SYNC && t != u && IsRunning(s, u) && Owns(s, t) && !s.threads[t].Running? && !WillPublish(s.threads[t])
    ensures CanOverlap(s)
  {
    match s.threads[t]
    case Holding =>
      var reset := Complete(t, Flags(false, false, true, false), 0);
      EmptyWhileRunning(Do(s, reset), u);
      OverlapAfter(s, reset);
    case Publishing(c) =>
      var s1 := Do(s, Finish(t));
      EmptyWhileRunning(Do(s1, Finish(t)), u);
      OverlapAfter(s1, Finish(t));
      OverlapAfter(s, Finish(t));
    case Resetting =>
      EmptyWhileRunning(Do(s, Finish(t)), u);
      OverlapAfter(s, Finish(t));
    case Rescuing =>
      EmptyWhileRunning(Do(s, Finish(t)), u);
      OverlapAfter(s, Finish(t));
  }

  /** The callback has succeeded with an aligned context: all that is left is to publish it. */
  predicate WillPublish(pc: Pc) { pc.Publishing? && pc.context % 4 == 0 }

  lemma EmptyWithOwner(s: State, t: nat)
    requires s.word == EMPTY && Owns(s, t) && !WillPublish(s.threads[t])
    ensures CanOverlap(s)
  {
    if IsRunning(s, t) {
      EmptyWhileRunning(s, t);
    } else {
      var u := FreshThread(s.threads.Keys);
      StaleReset(Entered(s, u), t, u);
      ExecuteEnters(s, u);
    }
  }

  // States from which no overlap can come: one owner, one owner besides a thread about to publish,
  // or a done word with at most one callback left.

  function WithoutThread(s: State, t: nat): State { s.(threads := s.threads - {t}) }

  ghost predicate PublisherApart(s: State, o: nat) {
    o in s.threads && WillPublish(s.threads[o]) && Exclusive(WithoutThread(s, o))
  }

  ghost predicate Safe(s: State) {
    Published(s) && !Overlap(s) && (Exclusive(s) || (exists o :: PublisherApart(s, o)) || IsDone(s.word))
  }

  lemma PublisherStep(s: State, op: Op, o: nat)
    requires Published(s) && Enabled(s, op) && !StrangerCompletes(s, op) && PublisherApart(s, o) && !IsDone(s.word)
    ensures Safe(Do(s, op))
  {
    PublishedKept(s, op);
    var s', r := Do(s, op), WithoutThread(s, o);
    if op.t == o {
      assert s'.threads == r.threads;
      ExclusiveNoOverlap(r);
      assert forall t :: IsRunning(s', t) == IsRunning(r, t);
      if s.word != SYNC {
        assert forall t :: Owns(s', t) == Owns(r, t);
        assert Exclusive(s');
      }
    } else {
      assert Enabled(r, op) && Owns(s, op.t) == Owns(r, op.t);
      SameStep(s, op, o);
      ExclusiveKept(r, op);
      assert PublisherApart(s', o);
      ExclusiveNoOverlap(WithoutThread(s', o));
      assert forall t :: IsRunning(s', t) == IsRunning(WithoutThread(s', o), t);
    }
  }

  lemma SameStep(s: State, op: Op, o: nat)
    requires Enabled(s, op) && o in s.threads && op.t != o
    ensures Enabled(WithoutThread(s, o), op) && WithoutThread(Do(s, op), o) == Do(WithoutThread(s, o), op)
    ensures o in Do(s, op).threads && Do(s, op).threads[o] == s.threads[o]
  {
    var s', r' := Do(s, op), Do(WithoutThread(s, o), op);
    forall pc ensures WithoutThread(Goto(s, op.t, pc), o) == Goto(WithoutThread(s, o), op.t, pc) {
      assert s.threads[op.t := pc] - {o} == (s.threads - {o})[op.t := pc];
    }
    assert s.threads - {op.t} - {o} == s.threads - {o} - {op.t};
  }

  lemma DoneStep(s: State, op: Op)
    requires Published(s) && Enabled(s, op) && IsDone(s.word) && !Overlap(s)
    ensures Safe(Do(s, op))
  {
    PublishedKept(s, op);
    NobodyPendingAfterDone(s, op);
    var s' := Do(s, op);
    assert forall t :: IsRunning(s', t) ==> IsRunning(s, t);
  }

  lemma SafeKept(s: State, op: Op)
    requires Safe(s) && Enabled(s, op) && !StrangerCompletes(s, op)
    ensures Safe(Do(s, op))
  {
    hide Do, Enabled, StrangerCompletes, Published, Exclusive, Overlap;
    if IsDone(s.word) {
      DoneStep(s, op);
    } else if Exclusive(s) {
      PublishedKept(s, op);
      ExclusiveKept(s, op);
      ExclusiveNoOverlap(Do(s, op));
    } else {
      var o :| PublisherApart(s, o);
      PublisherStep(s, op, o);
    }
  }

  lemma {:induction false} SafeNeverOverlaps(ss: seq<State>, ops: seq<Op>, n: nat)
    requires RunFrom(ss, ops) && n <= |ops| && Safe(ss[0])
    ensures Safe(ss[n])
  {
    hide Do, Enabled, StrangerCompletes, Safe;
    if n > 0 {
      SafeNeverOverlaps(ss, ops, n - 1);
      SafeKept(ss[n - 1], ops[n - 1]);
    }
  }

  /** The step by which a stranger opens the way to an overlap: it resets an attempt that is not just about to be published. */
  ghost predicate OpensTheWay(s: State, op: Op) {
    StrangerCompletes(s, op) && op.flags.failed && exists t :: Owns(s, t) && !WillPublish(s.threads[t])
  }

  lemma HarmlessStep(s: State, op: Op)
    requires Published(s) && Exclusive(s) && Enabled(s, op) && !OpensTheWay(s, op)
    ensures Safe(Do(s, op))
  {
    PublishedKept(s, op);
    ExclusiveNoOverlap(s);
    var s' := Do(s, op);
    if !StrangerCompletes(s, op) {
      ExclusiveKept(s, op);
      ExclusiveNoOverlap(s');
    } else {
      var o :| Owns(s, o);
      assert op.t != o && s'.threads == s.threads - {op.t};
      assert forall t :: IsRunning(s', t) ==> IsRunning(s, t);
      if op.flags.failed {
        assert s'.word == EMPTY && WillPublish(s'.threads[o]);
        forall t ensures !Owns(WithoutThread(s', o), t) {
          assert Owns(WithoutThread(s', o), t) ==> Owns(s, t);
        }
        assert PublisherApart(s', o);
      }
    }
  }

  /**
   Exactly when callbacks can come to overlap: after a run without a stranger's completion, a step
   makes an overlap reachable, with no further stranger's completion, if and only if a stranger
   resets an attempt whose owner is not just about to publish.
   */
  lemma OverlapIff(ss: seq<State>, ops: seq<Op>, op: Op)
    requires Run(ss, ops) && (forall i :: 0 <= i < |ops| ==> !StrangerCompletes(ss[i], ops[i]))
    requires Enabled(ss[|ops|], op)
    ensures CanOverlap(Do(ss[|ops|], op)) <==> OpensTheWay(ss[|ops|], op)
  {
    var s := ss[|ops|];
    RunPublishesOnce(ss, ops, |ops|);
    CallbacksDoNotOverlap(ss, ops, |ops|);
    var s' := Do(s, op);
    if OpensTheWay(s, op) {
      var t :| Owns(s, t) && !WillPublish(s.threads[t]);
      assert op.t != t && s'.word == EMPTY && t in s'.threads && s'.threads[t] == s.threads[t];
      EmptyWithOwner(s', t);
    } else {
      HarmlessStep(s, op);
      if CanOverlap(s') {
        var ts, more :| RunFrom(ts, more) && ts[0] == s' && Overlap(ts[|more|]);
        SafeNeverOverlaps(ts, more, |more|);
      }
    }
  }

  /** A run in which one stranger, thread 9, resets a running attempt and two callbacks overlap. */
  lemma StrangersBreakExclusion() returns (ss: seq<State>, ops: seq<Op>)
    ensures |ops| == 7 && Run(ss, ops) && OpensTheWay(ss[3], ops[3])
    ensures IsRunning(ss[|ops|], 1) && IsRunning(ss[|ops|], 2)
  {
    ops := [Execute(1, true), Load(1), Swap(1), Complete(9, Flags(false, false, true, false), 0),
            Execute(2, true), Load(2), Swap(2)];
    var s0 := Initial();
    var s1 := Do(s0, ops[0]);
    var s2 := Do(s1, ops[1]);
    var s3 := Do(s2, ops[2]);
    var s4 := Do(s3, ops[3]);
    var s5 := Do(s4, ops[4]);
    var s6 := Do(s5, ops[5]);
    var s7 := Do(s6, ops[6]);
    ss := [s0, s1, s2, s3, s4, s5, s6, s7];
    forall i | 0 <= i < |ops| ensures Enabled(ss[i], ops[i]) && ss[i + 1] == Do(ss[i], ops[i]) {
      assert i == 0 || i == 1 || i == 2 || i == 3 || i == 4 || i == 5 || i == 6;
    }
  }
}
