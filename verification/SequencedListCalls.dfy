/**
 What undisturbed calls do to the list: the header word, the links, the abstract stack, and the
 answers, in plain numbers.
 */
module SequencedListCalls {
  import opened Options
  import opened SequencedList

  /** The header word stands for a top, a sequence number and a depth, each in sixteen bits. */
  predicate Reads(h: Header, top: nat, sequence: nat, depth: nat) {
    h.top == top && h.high == sequence % 0x1_0000 * 0x1_0000 + depth % 0x1_0000
  }

  lemma HeaderReads(s: State)
    requires HeaderOk(s)
    ensures Reads(s.header, if s.stack == [] then 0 else s.stack[0], s.mutations, |s.stack|)
  {
  }

  // ---- Pushing ----

  ghost function PushAlone(s: State, t: nat, chain: seq<nat>): State
    requires Enabled(s, StartPush(t, chain))
  {
    var s1 := Do(s, StartPush(t, chain));
    var s2 := Do(s1, WriteLink(t));
    Do(s2, SwapPush(t))
  }

  /** The chain comes in front of what was there; the answer is the old top; the last node links to it. */
  lemma PushIs(s: State, t: nat, chain: seq<nat>)
    requires Inv(s) && Enabled(s, StartPush(t, chain))
    ensures var s', top := PushAlone(s, t, chain), if s.stack == [] then 0 else s.stack[0];
      && s'.stack == chain + s.stack && s'.threads == s.threads && s'.crashed == s.crashed
      && s'.effects == s.effects + [Pushed(chain, top)] && s'.mutations == s.mutations + 1
      && s'.memory == s.memory[chain[|chain| - 1] := top]
      && Reads(s'.header, chain[0], s.mutations + 1, |s.stack| + |chain|)
  {
    HeaderReads(s);
    AdvanceIs(s.mutations, |s.stack|, |chain|);
    hide Inv, Enabled, HighOf, Advance;
    KeysBack(s, t);
  }

  lemma KeysBack(s: State, t: nat)
    ensures t !in s.threads ==> forall pc: Pc {:trigger s.threads[t := pc]} :: s.threads[t := pc] - {t} == s.threads
  {
  }

  // ---- Popping ----

  ghost function PopAlone(s: State, t: nat): State
    requires t !in s.threads && (s.header.top != 0 ==> s.header.top in s.memory)
  {
    var s1 := Do(s, EnterPop(t));
    var s2 := Do(s1, SnapPop(t));
    if s.header.top == 0 then s2
    else Do(Do(s2, ReadNext(t)), SwapPop(t))
  }

  /** The first node comes off and is the answer, 0 if there is none. */
  lemma PopIs(s: State, t: nat)
    requires Inv(s) && t !in s.threads
    ensures s.header.top != 0 ==> s.header.top in s.memory
    ensures var s' := PopAlone(s, t);
      && s'.memory == s.memory && s'.threads == s.threads && s'.crashed == s.crashed
      && (s.stack == [] ==> s'.stack == [] && s'.header == s.header && s'.effects == s.effects + [Popped(0)] && s'.mutations == s.mutations)
      && (s.stack != [] ==>
            && s'.stack == s.stack[1..] && s'.effects == s.effects + [Popped(s.stack[0])] && s'.mutations == s.mutations + 1
            && Reads(s'.header, if |s.stack| == 1 then 0 else s.stack[1], s.mutations + 1, |s.stack| - 1))
  {
    HeaderReads(s);
    if s.stack != [] {
      TopKnown(s);
      PopHighIs(s.mutations, |s.stack|);
      hide Inv, HighOf, PopHigh;
      KeysBack(s, t);
    } else {
      hide Inv, HighOf, PopHigh;
      KeysBack(s, t);
    }
  }

  lemma TopKnown(s: State)
    requires Inv(s) && s.stack != []
    ensures s.header.top == s.stack[0] != 0 && s.header.top in s.memory
    ensures s.memory[s.header.top] == if |s.stack| == 1 then 0 else s.stack[1]
  {
  }

  // ---- Flushing ----

  ghost function FlushAlone(s: State, t: nat): State
    requires t !in s.threads
  {
    var s1 := Do(s, StartFlush(t));
    if s.header.top == 0 then s1 else Do(s1, SwapFlush(t))
  }

  /** Everything comes off at once; the answer is the first node. */
  lemma FlushIs(s: State, t: nat)
    requires Inv(s) && t !in s.threads
    ensures var s', top := FlushAlone(s, t), if s.stack == [] then 0 else s.stack[0];
      && s'.stack == [] && s'.memory == s.memory && s'.threads == s.threads && s'.crashed == s.crashed
      && s'.effects == s.effects + [Flushed(s.stack, top)]
      && (s.stack == [] ==> s'.header == s.header && s'.mutations == s.mutations)
      && (s.stack != [] ==> s'.mutations == s.mutations + 1 && Reads(s'.header, 0, s.mutations + 1, 0))
  {
    HeaderReads(s);
    if s.stack != [] {
      TopKnown(s);
    }
    FlushHighIs(s.mutations, |s.stack|);
    hide Inv, HighOf, FlushHigh;
    KeysBack(s, t);
  }

  // ---- The abstract stack ----

  /** Replaying accepts exactly the answers of a last-in, first-out list. */
  lemma ReplayIs(stack: seq<nat>, chain: seq<nat>, result: nat)
    ensures var top := if stack == [] then 0 else stack[0];
      && Apply(stack, Pushed(chain, result)) == (if result == top then Some(chain + stack) else None)
      && Apply(stack, Popped(result)) == (if result != top then None else if stack == [] then Some([]) else Some(stack[1..]))
      && Apply(stack, Flushed(chain, result)) == (if chain == stack && result == top then Some([]) else None)
  {
  }

  /** A snapshot is confusable exactly if a positive multiple of 65536 mutations has passed. */
  lemma WrappedIs(s: State, at: nat)
    ensures Wrapped(s, at) <==> exists k: nat :: k > 0 && s.mutations == at + k * 0x1_0000
  {
    if Wrapped(s, at) {
      var k := (s.mutations - at) / 0x1_0000;
      assert s.mutations == at + k * 0x1_0000;
    }
  }
}
