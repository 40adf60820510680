/**
 What one undisturbed call answers and leaves in the word, for every word it can find.
 */
module InitOnceCalls {
  import opened InitOnce

  /** The state with one more answer and without the thread that gave it. */
  ghost predicate Answered(s: State, s': State, word: nat, published: seq<nat>, a: Answer) {
    s'.word == word && s'.published == published && s'.answers == s.answers + [a] && s'.threads == s.threads - {a.thread}
  }

  /** Begins, loads, and swaps if the word was empty. */
  function BeginAlone(s: State, t: nat, flags: Flags, canYield: bool): State
    requires t !in s.threads
  {
    Looked(Do(s, Begin(t, flags, canYield)), t)
  }

  function Looked(s: State, t: nat): State {
    if !Enabled(s, Load(t)) then s
    else
      var seen := Do(s, Load(t));
      if Enabled(seen, Swap(t)) then Do(seen, Swap(t)) else seen
  }

  /**
   A begin: bad flags are refused; a done word gives its context; a mere check is not ready; the
   first caller of an empty word is told to initialize and marks the word; a word marked for
   asynchronous initialization admits asynchronous callers only; one marked for synchronous
   initialization is waited for, unless the caller cannot wait.
   */
  lemma BeginIs(s: State, t: nat, flags: Flags, canYield: bool)
    requires t !in s.threads
    ensures var s', bad := BeginAlone(s, t, flags, canYield), flags.unknown || flags.failed || (flags.check && flags.async);
      && (bad ==> Answered(s, s', s.word, s.published, Answer(t, Invalid, false, 0)))
      && (!bad && s.word % 4 == 2 ==> Answered(s, s', s.word, s.published, Answer(t, Ok, false, s.word - 2)))
      && (!bad && s.word % 4 != 2 && flags.check ==> Answered(s, s', s.word, s.published, Answer(t, NotReady, false, 0)))
      && (!bad && !flags.check && s.word == 0 && flags.async ==> Answered(s, s', 3, s.published, Answer(t, Ok, true, 0)))
      && (!bad && !flags.check && s.word == 0 && !flags.async ==>
            && s'.word == 1 && s'.published == s.published && s'.threads == s.threads[t := Holding]
            && s'.answers == s.answers + [Answer(t, Ok, true, 0)])
      && (!bad && !flags.check && s.word == 3 ==>
            Answered(s, s', 3, s.published, if flags.async then Answer(t, Ok, true, 0) else Answer(t, Conflict, false, 0)))
      && (!bad && !flags.check && s.word == 1 && flags.async ==> Answered(s, s', 1, s.published, Answer(t, Conflict, false, 0)))
      && (!bad && !flags.check && s.word == 1 && !flags.async && !canYield ==>
            Answered(s, s', 1, s.published, Answer(t, Invalid, false, 0)))
      && (!bad && !flags.check && s.word == 1 && !flags.async && canYield ==>
            s' == s.(threads := s.threads[t := Loading(flags, false, true)]))
      && (!bad && !flags.check && s.word % 4 != 2 && s.word != 0 && s.word != 1 && s.word != 3 ==>
            Answered(s, s', s.word, s.published, Answer(t, Invalid, false, 0)))
  {
    assert s.threads[t := Loading(flags, false, canYield)] - {t} == s.threads - {t} == s.threads;
  }

  /** Executes: looks at the word and, if the thread is to initialize, runs the callback and finishes. */
  function ExecuteAlone(s: State, t: nat, canYield: bool, ok: bool, context: nat): State
    requires t !in s.threads
  {
    var seen := Looked(Do(s, Execute(t, canYield)), t);
    if !Enabled(seen, CallbackReturns(t, ok, context)) then seen
    else
      var called := Do(seen, CallbackReturns(t, ok, context));
      var finished := Do(called, Finish(t));
      if Enabled(finished, Finish(t)) then Do(finished, Finish(t)) else finished
  }

  /**
   An execute on an empty word: success publishes an aligned context; a failed callback or a
   misaligned context leaves the word empty again. Otherwise it answers like a synchronous begin.
   */
  lemma ExecuteIs(s: State, t: nat, canYield: bool, ok: bool, context: nat)
    requires t !in s.threads
    ensures var s' := ExecuteAlone(s, t, canYield, ok, context);
      && (s.word == 0 && ok && context % 4 == 0 ==>
            Answered(s, s', context + 2, s.published + [context], Answer(t, Ok, false, context)))
      && (s.word == 0 && ok && context % 4 != 0 ==> Answered(s, s', 0, s.published, Answer(t, Invalid, false, 0)))
      && (s.word == 0 && !ok ==> Answered(s, s', 0, s.published, Answer(t, CallbackFailed, false, 0)))
      && (s.word % 4 == 2 ==> Answered(s, s', s.word, s.published, Answer(t, Ok, false, s.word - 2)))
      && (s.word == 3 ==> Answered(s, s', 3, s.published, Answer(t, Conflict, false, 0)))
      && (s.word == 1 && !canYield ==> Answered(s, s', 1, s.published, Answer(t, Invalid, false, 0)))
      && (s.word == 1 && canYield ==> s' == s.(threads := s.threads[t := Loading(NO_FLAGS, true, true)]))
  {
    assert s.threads[t := Loading(NO_FLAGS, true, canYield)] - {t} == s.threads - {t} == s.threads;
    if s.word == 0 {
      ExecuteEmpty(s, t, canYield, ok, context);
    }
  }

  lemma ExecuteEmpty(s: State, t: nat, canYield: bool, ok: bool, context: nat)
    requires t !in s.threads && s.word == 0
    ensures var s' := ExecuteAlone(s, t, canYield, ok, context);
      && (ok && context % 4 == 0 ==> Answered(s, s', context + 2, s.published + [context], Answer(t, Ok, false, context)))
      && (ok && context % 4 != 0 ==> Answered(s, s', 0, s.published, Answer(t, Invalid, false, 0)))
      && (!ok ==> Answered(s, s', 0, s.published, Answer(t, CallbackFailed, false, 0)))
  {
  }

  /**
   A completion: bad flags or a misaligned context are refused; otherwise it succeeds exactly if
   the word is marked for its kind, and then publishes the context or empties the word again.
   */
  lemma CompleteIs(s: State, t: nat, flags: Flags, context: nat)
    requires Enabled(s, Complete(t, flags, context))
    ensures var s', bad := Do(s, Complete(t, flags, context)), flags.unknown || flags.check || (flags.async && flags.failed)
                                                             || context % 4 != 0 || (flags.failed && context != 0);
      var hits := s.word == if flags.async then 3 else 1;
      && |s'.answers| == |s.answers| + 1 && s'.answers[..|s.answers|] == s.answers
      && var a := s'.answers[|s.answers|];
      && a.thread == t && a.context == 0
      && (bad ==> a.status == Invalid && s'.word == s.word && s'.published == s.published && s'.threads == s.threads)
      && (!bad && !hits ==> a.status == Conflict && s'.word == s.word && s'.published == s.published)
      && (!bad && hits && !flags.failed ==> a.status == Ok && s'.word == context + 2 && s'.published == s.published + [context])
      && (!bad && hits && flags.failed ==> a.status == Ok && s'.word == 0 && s'.published == s.published)
      && (!bad ==> s'.threads == if flags.async then s.threads else s.threads - {t})
  {
  }

  /** The word is empty at first and nobody is inside. */
  lemma StartsEmpty()
    ensures Initial() == State(0, map[], [], [])
  {
  }
}
