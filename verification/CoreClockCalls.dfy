/**
 What one undisturbed call to the Core clock client answers and leaves behind, for every state
 of the client and every behaviour of the callbacks.
 */
module CoreClockCalls {
  import opened Options
  import opened CoreClock

  datatype Outcome = Outcome(client: Client, result: Result)

  /** Runs one thread on from `pc`, one answer a step, until it returns. */
  function Alone(c: Client, pc: Pc, answers: seq<Answer>): Option<Outcome>
    decreases |answers|
  {
    if answers == [] then None
    else
      var m := Move(c, pc, answers[0]);
      match m.next
      case Return(r) => Some(Outcome(m.client, r))
      case Goto(next) => Alone(m.client, next, answers[1..])
  }

  lemma OneMove(c: Client, pc: Pc, a: Answer, rest: seq<Answer>)
    ensures Alone(c, pc, [a] + rest) ==
      match Move(c, pc, a).next
      case Return(r) => Some(Outcome(Move(c, pc, a).client, r))
      case Goto(next) => Alone(Move(c, pc, a).client, next, rest)
  {
    assert ([a] + rest)[1..] == rest;
  }

  const NONE := Answer(0, 0, true)

  /** The errors of the callbacks in the order of their calls, the handle opened, and whether the reply made sense. */
  datatype Callbacks = Callbacks(writable: nat, drain: nat, open: nat, handle: nat, query: nat, valid: bool, close: nat, again: nat)

  function DeviceAnswers(k: Callbacks): seq<Answer> {
    [Answer(k.open, k.handle, true)] + ([Answer(k.query, 0, k.valid)] + ([Answer(k.close, 0, true)]
    + ([Answer(k.again, 0, true)] + ([NONE] + ([NONE] + [])))))
  }

  function QueryAnswers(k: Callbacks): seq<Answer> {
    [NONE] + ([NONE] + ([NONE] + ([Answer(k.writable, 0, true)] + ([Answer(k.drain, 0, true)] + DeviceAnswers(k)))))
  }

  /** The first error that a query meets once it is admitted; 0 if it meets none. */
  function QueryError(c: Client, k: Callbacks): nat {
    if k.writable != 0 then k.writable
    else if c.held.Some? && k.drain != 0 then k.drain
    else if k.open != 0 then k.open
    else if k.query != 0 then k.query
    else if !k.valid then 1306
    else if k.close != 0 then k.close
    else k.again
  }

  /** Whether the device was opened, so that the old handle, if any, had been closed. */
  predicate Opens(c: Client, k: Callbacks) { k.writable == 0 && (c.held.Some? ==> k.drain == 0) && k.open == 0 }

  predicate Drains(c: Client, k: Callbacks) { k.writable == 0 && c.held.Some? && k.drain == 0 }

  function WithoutHeld(c: Client): Client {
    if c.held.Some? then c.(held := None, owned := c.owned - {c.held.value}) else c
  }

  /**
   An undisturbed query: refused when stopped or busy; otherwise its answer is the first error,
   and only without one the outputs are written. A retained handle is closed first; the handle
   opened is closed again, or retained if that fails.
   */
  lemma QueryAlone(c: Client, k: Callbacks)
    requires k.handle !in c.owned
    ensures var r := Alone(c, Check, QueryAnswers(k));
      && r.Some?
      && (c.stopped ==> r.value == Outcome(c, QueryReturned(21, false)))
      && (!c.stopped && c.admitted ==> r.value == Outcome(c, QueryReturned(170, false)))
      && (!c.stopped && !c.admitted ==>
            && r.value.result == QueryReturned(QueryError(c, k), QueryError(c, k) == 0)
            && r.value.client ==
                 (if Opens(c, k) then
                    var c' := WithoutHeld(c).(openings := c.openings + 1);
                    if k.close == 0 then c' else c'.(owned := c'.owned + {k.handle}, held := Some(k.handle))
                  else if Drains(c, k) then WithoutHeld(c)
                  else c))
  {
    var rest1 := [Answer(k.drain, 0, true)] + DeviceAnswers(k);
    var rest2 := [Answer(k.writable, 0, true)] + rest1;
    var rest3 := [NONE] + rest2;
    hide Alone, DeviceAnswers;
    OneMove(c, Check, NONE, [NONE] + rest3);
    OneMove(c, Enter, NONE, rest3);
    var e := c.(admitted := true);
    OneMove(e, Recheck, NONE, rest2);
    OneMove(e, Probe, Answer(k.writable, 0, true), rest1);
    LeaveAlone(e, k.writable, false, Answer(k.drain, 0, true), DeviceAnswers(k));
    OneMove(e, Drain, Answer(k.drain, 0, true), DeviceAnswers(k));
    DeviceLeaves(e, k);
    if c.held.None? || k.drain == 0 {
      DeviceAlone(DrainHeld(e, k.drain), k);
    }
  }

  lemma DeviceLeaves(c: Client, k: Callbacks)
    ensures Alone(c, Leave(k.drain, false), DeviceAnswers(k)) == Some(Outcome(c.(admitted := false), QueryReturned(k.drain, false)))
  {
    LeaveAlone(c, k.drain, false, DeviceAnswers(k)[0], DeviceAnswers(k)[1..]);
  }

  /** Opening, asking and closing the device. */
  lemma DeviceAlone(f: Client, k: Callbacks)
    requires k.handle !in f.owned && f.held.None?
    ensures var r, error := Alone(f, Open, DeviceAnswers(k)), QueryError(f, k.(writable := 0));
      && r.Some? && r.value.result == QueryReturned(error, error == 0)
      && r.value.client ==
           (if k.open != 0 then f.(admitted := false)
            else if k.close == 0 then f.(admitted := false, openings := f.openings + 1)
            else f.(admitted := false, openings := f.openings + 1, owned := f.owned + {k.handle}, held := Some(k.handle)))
  {
    var rest0: seq<Answer> := [NONE] + [];
    var rest1 := [NONE] + rest0;
    var rest2 := [Answer(k.again, 0, true)] + rest1;
    var rest3 := [Answer(k.close, 0, true)] + rest2;
    var rest4 := [Answer(k.query, 0, k.valid)] + rest3;
    hide Alone;
    OneMove(f, Open, Answer(k.open, k.handle, true), rest4);
    LeaveAlone(f, k.open, false, Answer(k.query, 0, k.valid), rest3);
    var g := f.(owned := f.owned + {k.handle}, openings := f.openings + 1);
    OneMove(g, Ask(k.handle), Answer(k.query, 0, k.valid), rest3);
    var asked := if k.query != 0 then k.query else if k.valid then 0 else 1306;
    OneMove(g, Close(k.handle, asked), Answer(k.close, 0, true), rest2);
    var h := if k.close == 0 then g.(owned := g.owned - {k.handle}) else g.(held := Some(k.handle));
    LeaveAlone(h, if asked != 0 then asked else k.close, false, Answer(k.again, 0, true), rest1);
    OneMove(h, Reprobe, Answer(k.again, 0, true), rest1);
    LeaveAlone(h, k.again, false, NONE, rest0);
    OneMove(h, Publish, NONE, rest0);
    LeaveAlone(h, 0, true, NONE, []);
  }

  lemma LeaveAlone(c: Client, error: nat, wrote: bool, a: Answer, rest: seq<Answer>)
    ensures Alone(c, Leave(error, wrote), [a] + rest) == Some(Outcome(c.(admitted := false), QueryReturned(error, wrote)))
  {
    OneMove(c, Leave(error, wrote), a, rest);
  }

  /** An undisturbed stop: the flag is set in any case; otherwise busy, or the retained handle is closed. */
  lemma StopAlone(c: Client, close: nat)
    ensures var r := Alone(c, StopStore, [NONE] + ([NONE] + ([Answer(close, 0, true)] + ([NONE] + []))));
      && r.Some?
      && (c.admitted ==> r.value == Outcome(c.(stopped := true), StopReturned(170)))
      && (!c.admitted ==>
            var error := if c.held.Some? then close else 0;
            && r.value.result == StopReturned(error)
            && r.value.client == (if error == 0 then WithoutHeld(c).(stopped := true, drained := true) else c.(stopped := true)))
  {
    var rest0: seq<Answer> := [NONE] + [];
    var rest1 := [Answer(close, 0, true)] + rest0;
    var rest2 := [NONE] + rest1;
    hide Alone;
    OneMove(c, StopStore, NONE, rest2);
    var d := c.(stopped := true);
    OneMove(d, StopEnter, NONE, rest1);
    var e := d.(admitted := true);
    OneMove(e, StopDrain, Answer(close, 0, true), rest0);
    var f := DrainHeld(e, close);
    OneMove(f, StopLeave(DrainError(e, close)), NONE, []);
  }

  /** A stop that comes between the two looks at the flag still turns the query away. */
  lemma StoppedMidway(c: Client, a: Answer, b: Answer)
    requires c.stopped
    ensures Alone(c, Recheck, [a] + ([b] + [])) == Some(Outcome(c.(admitted := false), QueryReturned(21, false)))
  {
    hide Alone;
    OneMove(c, Recheck, a, [b] + []);
    LeaveAlone(c, 21, false, b, []);
  }

  /** Nothing is admitted, stopped, retained or owned at first. */
  lemma StartsFree()
    ensures Initial() == State(Client(false, false, None, {}, 0, false), map[], [])
  {
  }
}
