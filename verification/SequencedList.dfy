/**
 The sequenced singly linked list: a header word changed only by 64-bit compare-and-swap,
 node links in ordinary memory, and any number of threads between their snapshot and their swap.
 */
module SequencedList {
  import opened Modular
  import opened Options

  const HALF := 0x1_0000
  const WORD := 0x1_0000_0000

  // ---- The header word ----

  /** `high` holds the sequence number in its upper half and the depth in its lower half. */
  datatype Header = Header(top: nat, high: nat)
  {
    function Sequence(): nat { high / HALF }
    function Depth(): nat { high % HALF }
  }

  function HighOf(sequence: nat, depth: nat): nat {
    sequence % HALF * HALF + depth % HALF
  }

  /** `((high + 0x10000) & 0xffff0000) | ((high + count) & 0xffff)` in 32-bit arithmetic. */
  function Advance(high: nat, count: nat): nat {
    (high + HALF) % WORD / HALF * HALF + (high + count) % WORD % HALF
  }

  /** Adds one to the sequence and decrements the 16-bit depth on its own. */
  function PopHigh(high: nat): nat {
    (high + HALF) % WORD / HALF * HALF + (high % HALF + HALF - 1) % HALF
  }

  function FlushHigh(high: nat): nat {
    (high + HALF) % WORD / HALF * HALF
  }

  lemma SequenceAdvances(sequence: nat, depth: nat)
    ensures (HighOf(sequence, depth) + HALF) % WORD / HALF == (sequence + 1) % HALF
  {
    var q, d := sequence % HALF, depth % HALF;
    assert (sequence + 1) % HALF == (q + 1) % HALF;
    if q + 1 == HALF {
      assert HighOf(sequence, depth) + HALF == WORD + d;
    } else {
      assert HighOf(sequence, depth) + HALF == (q + 1) * HALF + d;
    }
  }

  /** Depth never carries into the sequence, and the sequence never borrows from it. */
  lemma AdvanceIs(sequence: nat, depth: nat, count: nat)
    ensures Advance(HighOf(sequence, depth), count) == HighOf(sequence + 1, depth + count)
  {
    SequenceAdvances(sequence, depth);
    var high := HighOf(sequence, depth);
    assert (high + count) % WORD % HALF == (high + count) % HALF by { ModMod(high + count); }
    assert (high + count) % HALF == (depth + count) % HALF by {
      assert high + count == sequence % HALF * HALF + (depth % HALF + count);
      ModShift(sequence % HALF, depth % HALF + count, HALF);
      ModShift(depth / HALF, depth % HALF + count, HALF);
    }
  }

  lemma ModMod(n: nat)
    ensures n % WORD % HALF == n % HALF
  {
    ModShift(n / WORD * HALF, n % WORD, HALF);
    assert n == n / WORD * HALF * HALF + n % WORD;
  }

  lemma PopHighIs(sequence: nat, depth: nat)
    requires depth > 0
    ensures PopHigh(HighOf(sequence, depth)) == HighOf(sequence + 1, depth - 1)
  {
    var high := HighOf(sequence, depth);
    assert (high + HALF) % WORD / HALF == (sequence + 1) % HALF by { SequenceAdvances(sequence, depth); }
    assert high % HALF == depth % HALF by { ModShift(sequence % HALF, depth % HALF, HALF); }
    assert (depth % HALF + HALF - 1) % HALF == (depth - 1) % HALF by {
      ModShift(1, depth - 1, HALF);
      ModShift(depth / HALF, depth % HALF + HALF - 1, HALF);
    }
  }

  lemma FlushHighIs(sequence: nat, depth: nat)
    ensures FlushHigh(HighOf(sequence, depth)) == HighOf(sequence + 1, 0)
  {
    SequenceAdvances(sequence, depth);
  }

  lemma Fields(sequence: nat, depth: nat)
    ensures Header(0, HighOf(sequence, depth)).Sequence() == sequence % HALF
    ensures Header(0, HighOf(sequence, depth)).Depth() == depth % HALF
  {
    ModShift(sequence % HALF, depth % HALF, HALF);
  }

  // ---- State ----

  /** Where a thread stands inside one call; `at` is the mutation count at its snapshot. */
  datatype Pc =
    | Pushing(chain: seq<nat>, snap: Header, at: nat, linked: bool)
    | PopEntered
    | Popping(snap: Header, at: nat, read: Option<nat>)
    | Flushing(snap: Header, at: nat)

  /** A completed call, in the order of its effect on the header. */
  datatype Effect =
    | Pushed(chain: seq<nat>, result: nat)
    | Popped(result: nat)
    | Flushed(list: seq<nat>, result: nat)

  /** `memory` maps every readable node to its link; `stack` and the counters are history variables. */
  datatype State = State(header: Header, memory: map<nat, nat>, threads: map<nat, Pc>,
                         stack: seq<nat>, mutations: nat, effects: seq<Effect>, crashed: bool)

  function First(s: seq<nat>): nat { if s == [] then 0 else s[0] }

  ghost predicate NoDup(s: seq<nat>) { forall i, j :: 0 <= i < j < |s| ==> s[i] != s[j] }

  /** All nodes are readable, non-null and different. */
  ghost predicate Nodes(memory: map<nat, nat>, s: seq<nat>) {
    NoDup(s) && forall i :: 0 <= i < |s| ==> s[i] != 0 && s[i] in memory
  }

  /** Every node links to the next one, except possibly the last. */
  ghost predicate Inner(memory: map<nat, nat>, s: seq<nat>)
    requires Nodes(memory, s)
  {
    forall i :: 0 <= i < |s| - 1 ==> memory[s[i]] == s[i + 1]
  }

  ghost predicate Chain(memory: map<nat, nat>, s: seq<nat>, end: nat) {
    Nodes(memory, s) && Inner(memory, s) && (s != [] ==> memory[s[|s| - 1]] == end)
  }

  ghost predicate Apart(a: seq<nat>, b: seq<nat>) { forall n :: n in a ==> n !in b }

  // ---- The sequential specification ----

  /** The abstract stack after one call, if the call's result is the right one. */
  function Apply(stack: seq<nat>, e: Effect): Option<seq<nat>> {
    match e
    case Pushed(chain, result) => if result == First(stack) then Some(chain + stack) else None
    case Popped(result) =>
      if result != First(stack) then None else if stack == [] then Some([]) else Some(stack[1..])
    case Flushed(list, result) => if list == stack && result == First(stack) then Some([]) else None
  }

  function Replay(effects: seq<Effect>): Option<seq<nat>> {
    if effects == [] then Some([])
    else match Replay(effects[..|effects| - 1])
         case None => None
         case Some(stack) => Apply(stack, effects[|effects| - 1])
  }

  // ---- Invariant ----

  ghost predicate HeaderOk(s: State) {
    && s.header == Header(First(s.stack), HighOf(s.mutations, |s.stack|))
    && Chain(s.memory, s.stack, 0)
  }

  /** A snapshot carries the sequence number of its moment; if nothing happened since, it is the header. */
  ghost predicate SnapOk(s: State, snap: Header, at: nat) {
    at <= s.mutations && snap.Sequence() == at % HALF && (at == s.mutations ==> snap == s.header)
  }

  ghost predicate ThreadOk(s: State, t: nat)
    requires t in s.threads
  {
    match s.threads[t]
    case Pushing(chain, snap, at, linked) =>
      && SnapOk(s, snap, at) && chain != [] && Apart(chain, s.stack)
      && Nodes(s.memory, chain) && Inner(s.memory, chain)
      && (linked ==> s.memory[chain[|chain| - 1]] == snap.top)
    case PopEntered => true
    case Popping(snap, at, read) =>
      && SnapOk(s, snap, at) && snap.top != 0
      && (at == s.mutations && read.Some? ==> snap.top in s.memory && read.value == s.memory[snap.top])
    case Flushing(snap, at) => SnapOk(s, snap, at) && snap.top != 0
  }

  ghost predicate ThreadsApart(s: State, t: nat, u: nat)
    requires t in s.threads && u in s.threads
  {
    t != u && s.threads[t].Pushing? && s.threads[u].Pushing? ==> Apart(s.threads[t].chain, s.threads[u].chain)
  }

  ghost predicate Inv(s: State) {
    && HeaderOk(s) && !s.crashed && Replay(s.effects) == Some(s.stack)
    && (forall t :: t in s.threads ==> ThreadOk(s, t))
    && (forall t, u {:trigger ThreadsApart(s, t, u)} :: t in s.threads && u in s.threads ==> ThreadsApart(s, t, u))
  }

  function Initial(memory: map<nat, nat>): State {
    State(Header(0, 0), memory, map[], [], 0, [], false)
  }

  // ---- Steps ----

  datatype Op =
    | StartPush(t: nat, chain: seq<nat>)
    | WriteLink(t: nat)
    | SwapPush(t: nat)
    | EnterPop(t: nat)
    | SnapPop(t: nat)
    | ReadNext(t: nat)
    | Fault(t: nat)
    | SwapPop(t: nat)
    | StartFlush(t: nat)
    | SwapFlush(t: nat)
    | Reuse(node: nat, link: nat)
    | Reclaim(node: nat)

  /** A node nobody has handed to the list. */
  ghost predicate CallerOwned(s: State, n: nat) {
    n !in s.stack && forall t :: t in s.threads && s.threads[t].Pushing? ==> n !in s.threads[t].chain
  }

  /** What callers of the list promise: chains they push are theirs, and they touch only their own nodes. */
  ghost predicate Enabled(s: State, op: Op) {
    match op
    case StartPush(t, chain) =>
      && t !in s.threads && chain != [] && Nodes(s.memory, chain) && Inner(s.memory, chain)
      && forall n :: n in chain ==> CallerOwned(s, n)
    case WriteLink(t) => t in s.threads && s.threads[t].Pushing? && s.threads[t].chain != []
    case SwapPush(t) => t in s.threads && s.threads[t].Pushing? && s.threads[t].linked
    case EnterPop(t) => t !in s.threads
    case SnapPop(t) => t in s.threads && s.threads[t].PopEntered?
    case ReadNext(t) => t in s.threads && s.threads[t].Popping? && s.threads[t].snap.top in s.memory
    case Fault(t) => t in s.threads && s.threads[t].Popping? && s.threads[t].snap.top !in s.memory
    case SwapPop(t) => t in s.threads && s.threads[t].Popping? && s.threads[t].read.Some?
    case StartFlush(t) => t !in s.threads
    case SwapFlush(t) => t in s.threads && s.threads[t].Flushing?
    case Reuse(n, _) => CallerOwned(s, n)
    case Reclaim(n) => CallerOwned(s, n)
  }

  /** A positive multiple of 65536 mutations has gone by: the sequence number looks unchanged. */
  predicate Wrapped(s: State, at: nat) { at < s.mutations && (s.mutations - at) % HALF == 0 }

  /** No swap, and no fault, comes at a moment that its snapshot's sequence number cannot tell from its own. */
  ghost predicate Timely(s: State, op: Op) {
    match op
    case SwapPush(t) => t in s.threads && s.threads[t].Pushing? ==> !Wrapped(s, s.threads[t].at)
    case SwapPop(t) => t in s.threads && s.threads[t].Popping? ==> !Wrapped(s, s.threads[t].at)
    case SwapFlush(t) => t in s.threads && s.threads[t].Flushing? ==> !Wrapped(s, s.threads[t].at)
    case Fault(t) => t in s.threads && s.threads[t].Popping? ==> !Wrapped(s, s.threads[t].at)
    case _ => true
  }

  function Mutate(s: State, t: nat, header: Header, stack: seq<nat>, e: Effect): State {
    s.(header := header, stack := stack, mutations := s.mutations + 1, effects := s.effects + [e], threads := s.threads - {t})
  }

  /** A call that found the list empty takes effect when it sees that. */
  function SeeEmpty(s: State, t: nat, e: Effect): State {
    s.(effects := s.effects + [e], threads := s.threads - {t})
  }

  function At(s: State, t: nat, pc: Pc): State {
    s.(threads := s.threads[t := pc])
  }

  ghost function Do(s: State, op: Op): State
    requires Enabled(s, op)
  {
    match op
    case StartPush(t, chain) => At(s, t, Pushing(chain, s.header, s.mutations, false))
    case WriteLink(t) =>
      var pc := s.threads[t];
      At(s, t, pc.(linked := true)).(memory := s.memory[pc.chain[|pc.chain| - 1] := pc.snap.top])
    case SwapPush(t) =>
      var pc := s.threads[t];
      if s.header != pc.snap then At(s, t, Pushing(pc.chain, s.header, s.mutations, false))
      else Mutate(s, t, Header(First(pc.chain), Advance(pc.snap.high, |pc.chain|)), pc.chain + s.stack, Pushed(pc.chain, pc.snap.top))
    case EnterPop(t) => At(s, t, PopEntered)
    case SnapPop(t) =>
      if s.header.top == 0 then SeeEmpty(s, t, Popped(0)) else At(s, t, Popping(s.header, s.mutations, None))
    case ReadNext(t) =>
      var pc := s.threads[t];
      At(s, t, pc.(read := Some(s.memory[pc.snap.top])))
    case Fault(t) =>
      if s.header == s.threads[t].snap then s.(crashed := true) else At(s, t, PopEntered)
    case SwapPop(t) =>
      var pc := s.threads[t];
      if s.header != pc.snap then At(s, t, PopEntered)
      else Mutate(s, t, Header(pc.read.value, PopHigh(pc.snap.high)), if s.stack == [] then [] else s.stack[1..], Popped(pc.snap.top))
    case StartFlush(t) =>
      if s.header.top == 0 then SeeEmpty(s, t, Flushed([], 0)) else At(s, t, Flushing(s.header, s.mutations))
    case SwapFlush(t) =>
      var pc := s.threads[t];
      if s.header == pc.snap then Mutate(s, t, Header(0, FlushHigh(pc.snap.high)), [], Flushed(s.stack, pc.snap.top))
      else if s.header.top == 0 then SeeEmpty(s, t, Flushed([], 0))
      else At(s, t, Flushing(s.header, s.mutations))
    case Reuse(n, link) => s.(memory := s.memory[n := link])
    case Reclaim(n) => s.(memory := s.memory - {n})
  }

  // ---- Why a successful swap means that nothing happened ----

  /** Unless the sequence number has come round, an equal header means no mutation since the snapshot. */
  lemma NothingHappened(s: State, snap: Header, at: nat)
    requires HeaderOk(s) && SnapOk(s, snap, at) && s.header == snap && !Wrapped(s, at)
    ensures at == s.mutations
  {
    Fields(s.mutations, |s.stack|);
    SameResidue(at, s.mutations - at);
  }

  lemma SameResidue(n: nat, d: nat)
    ensures (n + d) % HALF == n % HALF <==> d % HALF == 0
  {
    var r, e := n % HALF, d % HALF;
    ModShift(n / HALF + d / HALF, r + e, HALF);
    assert n + d == (n / HALF + d / HALF) * HALF + (r + e);
    if r + e >= HALF {
      ModShift(1, r + e - HALF, HALF);
    }
  }

  lemma ReplaySnoc(effects: seq<Effect>, e: Effect, stack: seq<nat>)
    requires Replay(effects) == Some(stack)
    ensures Replay(effects + [e]) == Apply(stack, e)
  {
    assert (effects + [e])[..|effects|] == effects;
  }

  // ---- Every step keeps the invariant ----

  /** Threads other than the one that moved, when the header did not change. */
  lemma QuietStep(s: State, s': State, t: nat)
    requires Inv(s) && s'.header == s.header && s'.stack == s.stack && s'.mutations == s.mutations && !s'.crashed
    requires s'.memory == s.memory && Replay(s'.effects) == Some(s'.stack)
    requires forall u :: u in s'.threads && u != t ==> u in s.threads && s'.threads[u] == s.threads[u]
    requires t in s'.threads ==> ThreadOk(s', t)
    requires t in s'.threads && s'.threads[t].Pushing? ==>
      forall u :: u in s'.threads && u != t && s'.threads[u].Pushing? ==> Apart(s'.threads[t].chain, s'.threads[u].chain)
    ensures Inv(s')
  {
    forall u | u in s'.threads ensures ThreadOk(s', u) {
      if u != t {
        assert ThreadOk(s, u);
      }
    }
    forall u, v | u in s'.threads && v in s'.threads ensures ThreadsApart(s', u, v) {
      if u != t && v != t {
        assert ThreadsApart(s, u, v);
      }
    }
  }

  lemma SnapNow(s: State)
    requires HeaderOk(s)
    ensures SnapOk(s, s.header, s.mutations)
  {
    Fields(s.mutations, |s.stack|);
  }

  /** Caller-owned memory is not part of any chain the list relies on. */
  lemma MemoryStep(s: State, n: nat, s': State)
    requires Inv(s) && CallerOwned(s, n) && s' == s.(memory := s'.memory)
    requires forall m :: m != n && m in s.memory ==> m in s'.memory && s'.memory[m] == s.memory[m]
    ensures Inv(s')
  {
    forall u | u in s'.threads ensures ThreadOk(s', u) {
      assert ThreadOk(s, u);
      if s.threads[u].Popping? && s.threads[u].at == s.mutations {
        assert s.threads[u].snap.top in s.stack;
      }
    }
    forall u, v | u in s'.threads && v in s'.threads ensures ThreadsApart(s', u, v) {
      assert ThreadsApart(s, u, v);
    }
  }

  /** Writing the last link of a chain being pushed touches nobody else's nodes. */
  lemma WriteLinkKeeps(s: State, t: nat)
    requires Inv(s) && Enabled(s, WriteLink(t))
    ensures Inv(Do(s, WriteLink(t)))
  {
    var s', pc := Do(s, WriteLink(t)), s.threads[t];
    var last := pc.chain[|pc.chain| - 1];
    assert ThreadOk(s, t) && last in pc.chain;
    forall u | u in s'.threads ensures ThreadOk(s', u) {
      assert ThreadOk(s, u) && ThreadsApart(s, t, u);
      if s.threads[u].Popping? && s.threads[u].at == s.mutations {
        assert s.threads[u].snap.top in s.stack;
      }
    }
    forall u, v | u in s'.threads && v in s'.threads ensures ThreadsApart(s', u, v) {
      assert ThreadsApart(s, u, v);
    }
  }

  /** After a mutation every other snapshot is out of date. */
  lemma OthersAfterMutation(s: State, s': State, t: nat)
    requires Inv(s) && s'.mutations == s.mutations + 1 && s'.memory == s.memory && s'.threads == s.threads - {t}
    requires forall u :: u in s'.threads && s.threads[u].Pushing? ==> Apart(s.threads[u].chain, s'.stack)
    ensures forall u :: u in s'.threads ==> ThreadOk(s', u)
    ensures forall u, v {:trigger ThreadsApart(s', u, v)} :: u in s'.threads && v in s'.threads ==> ThreadsApart(s', u, v)
  {
    forall u | u in s'.threads ensures ThreadOk(s', u) {
      assert ThreadOk(s, u);
    }
    forall u, v | u in s'.threads && v in s'.threads ensures ThreadsApart(s', u, v) {
      assert ThreadsApart(s, u, v);
    }
  }

  lemma JoinChains(memory: map<nat, nat>, a: seq<nat>, b: seq<nat>)
    requires a != [] && Chain(memory, a, First(b)) && Chain(memory, b, 0) && Apart(a, b)
    ensures Chain(memory, a + b, 0)
  {
    var c := a + b;
    forall i, j | 0 <= i < j < |c| ensures c[i] != c[j] {
      if i < |a| <= j {
        assert a[i] in a && b[j - |a|] in b;
      }
    }
    forall i | 0 <= i < |c| ensures c[i] != 0 && c[i] in memory {
      if i >= |a| {
        assert c[i] == b[i - |a|];
      }
    }
    forall i | 0 <= i < |c| - 1 ensures memory[c[i]] == c[i + 1] {
      if i >= |a| {
        assert c[i] == b[i - |a|] && c[i + 1] == b[i - |a| + 1];
      }
    }
  }

  /** A successful push is one atomic push of its whole chain. */
  lemma PushKeeps(s: State, t: nat)
    requires Inv(s) && Enabled(s, SwapPush(t)) && Timely(s, SwapPush(t)) && s.header == s.threads[t].snap
    ensures Inv(Do(s, SwapPush(t)))
  {
    var s', pc := Do(s, SwapPush(t)), s.threads[t];
    assert ThreadOk(s, t);
    NothingHappened(s, pc.snap, pc.at);
    AdvanceIs(s.mutations, |s.stack|, |pc.chain|);
    JoinChains(s.memory, pc.chain, s.stack);
    forall u | u in s'.threads && s.threads[u].Pushing? ensures Apart(s.threads[u].chain, s'.stack) {
      assert ThreadOk(s, u) && ThreadsApart(s, u, t);
    }
    OthersAfterMutation(s, s', t);
    ReplaySnoc(s.effects, Pushed(pc.chain, pc.snap.top), s.stack);
  }

  lemma TailChain(memory: map<nat, nat>, s: seq<nat>)
    requires s != [] && Chain(memory, s, 0)
    ensures Chain(memory, s[1..], 0) && memory[s[0]] == First(s[1..])
  {
    var c := s[1..];
    assert forall i :: 0 <= i < |c| ==> c[i] == s[i + 1];
    forall i | 0 <= i < |c| - 1 ensures memory[c[i]] == c[i + 1] {
      assert memory[s[i + 1]] == s[i + 2];
    }
    if |c| > 0 {
      assert memory[s[0]] == s[1];
    }
  }

  /** A successful pop removes exactly the top, and the successor it installs is the true one. */
  lemma PopKeeps(s: State, t: nat)
    requires Inv(s) && Enabled(s, SwapPop(t)) && Timely(s, SwapPop(t)) && s.header == s.threads[t].snap
    ensures s.stack != [] && s.threads[t].read.value == First(s.stack[1..])
    ensures Inv(Do(s, SwapPop(t)))
  {
    var s', pc := Do(s, SwapPop(t)), s.threads[t];
    assert ThreadOk(s, t);
    NothingHappened(s, pc.snap, pc.at);
    TailChain(s.memory, s.stack);
    PopHighIs(s.mutations, |s.stack|);
    forall u | u in s'.threads && s.threads[u].Pushing? ensures Apart(s.threads[u].chain, s'.stack) {
      assert ThreadOk(s, u);
    }
    OthersAfterMutation(s, s', t);
    ReplaySnoc(s.effects, Popped(pc.snap.top), s.stack);
  }

  /** A successful flush takes the whole list, still chained from the node it returns. */
  lemma FlushKeeps(s: State, t: nat)
    requires Inv(s) && Enabled(s, SwapFlush(t)) && Timely(s, SwapFlush(t)) && s.header == s.threads[t].snap
    ensures Chain(Do(s, SwapFlush(t)).memory, s.stack, 0) && s.threads[t].snap.top == First(s.stack)
    ensures Inv(Do(s, SwapFlush(t)))
  {
    var s', pc := Do(s, SwapFlush(t)), s.threads[t];
    assert ThreadOk(s, t);
    NothingHappened(s, pc.snap, pc.at);
    FlushHighIs(s.mutations, |s.stack|);
    OthersAfterMutation(s, s', t);
    ReplaySnoc(s.effects, Flushed(s.stack, pc.snap.top), s.stack);
  }

  /** The recovery handler never sees an unchanged header: a node still on the list is readable. */
  lemma FaultMeansChanged(s: State, t: nat)
    requires Inv(s) && Enabled(s, Fault(t)) && Timely(s, Fault(t))
    ensures s.header != s.threads[t].snap
  {
    assert ThreadOk(s, t);
    TopIsReadable(s, s.threads[t].snap, s.threads[t].at);
  }

  lemma TopIsReadable(s: State, snap: Header, at: nat)
    requires HeaderOk(s) && SnapOk(s, snap, at) && !Wrapped(s, at) && snap.top != 0
    ensures s.header == snap ==> snap.top in s.memory
  {
    if s.header == snap {
      NothingHappened(s, snap, at);
      assert s.stack[0] in s.memory;
    }
  }

  lemma EmptySeen(s: State, e: Effect)
    requires Inv(s) && s.header.top == 0 && (e == Popped(0) || e == Flushed([], 0))
    ensures s.stack == [] && Replay(s.effects + [e]) == Some(s.stack)
  {
    ReplaySnoc(s.effects, e, s.stack);
  }

  lemma PopStepKeeps(s: State, op: Op)
    requires Inv(s) && Enabled(s, op) && Timely(s, op)
    requires op.EnterPop? || op.SnapPop? || op.ReadNext? || op.Fault? || op.SwapPop?
    ensures Inv(Do(s, op))
  {
    var s' := Do(s, op);
    SnapNow(s);
    match op
    case EnterPop(t) => QuietStep(s, s', t);
    case SnapPop(t) =>
      if s.header.top == 0 {
        EmptySeen(s, Popped(0));
      }
      QuietStep(s, s', t);
    case ReadNext(t) =>
      assert ThreadOk(s, t);
      QuietStep(s, s', t);
    case Fault(t) =>
      FaultMeansChanged(s, t);
      QuietStep(s, s', t);
    case SwapPop(t) =>
      if s.header == s.threads[t].snap {
        PopKeeps(s, t);
      } else {
        QuietStep(s, s', t);
      }
  }

  lemma FlushStepKeeps(s: State, op: Op)
    requires Inv(s) && Enabled(s, op) && Timely(s, op) && (op.StartFlush? || op.SwapFlush?)
    ensures Inv(Do(s, op))
  {
    var s' := Do(s, op);
    SnapNow(s);
    if s.header.top == 0 {
      EmptySeen(s, Flushed([], 0));
    }
    if op.SwapFlush? && s.header == s.threads[op.t].snap {
      FlushKeeps(s, op.t);
    } else {
      QuietStep(s, s', op.t);
    }
  }

  lemma PushStepKeeps(s: State, op: Op)
    requires Inv(s) && Enabled(s, op) && Timely(s, op) && (op.StartPush? || op.WriteLink? || op.SwapPush?)
    ensures Inv(Do(s, op))
  {
    match op
    case StartPush(t, chain) =>
      forall u | u in s.threads && s.threads[u].Pushing? ensures Apart(chain, s.threads[u].chain) && Apart(s.threads[u].chain, chain) {
      }
      StartPushKeeps(s, t, chain);
    case WriteLink(t) => WriteLinkKeeps(s, t);
    case SwapPush(t) =>
      assert ThreadOk(s, t);
      if s.header == s.threads[t].snap {
        PushKeeps(s, t);
      } else {
        RetryPushKeeps(s, t);
      }
  }

  lemma StepKeeps(s: State, op: Op)
    requires Inv(s) && Enabled(s, op) && Timely(s, op)
    ensures Inv(Do(s, op))
  {
    match op
    case StartPush(_, _) => PushStepKeeps(s, op);
    case WriteLink(_) => PushStepKeeps(s, op);
    case SwapPush(_) => PushStepKeeps(s, op);
    case StartFlush(_) => FlushStepKeeps(s, op);
    case SwapFlush(_) => FlushStepKeeps(s, op);
    case Reuse(n, _) => MemoryStep(s, n, Do(s, op));
    case Reclaim(n) => MemoryStep(s, n, Do(s, op));
    case _ => PopStepKeeps(s, op);
  }

  lemma StartPushKeeps(s: State, t: nat, chain: seq<nat>)
    requires Inv(s) && Enabled(s, StartPush(t, chain))
    ensures Inv(Do(s, StartPush(t, chain)))
  {
    var s' := Do(s, StartPush(t, chain));
    SnapNow(s);
    forall u, v | u in s'.threads && v in s'.threads ensures ThreadsApart(s', u, v) {
      assert u != t && v != t ==> ThreadsApart(s, u, v);
    }
    forall u | u in s'.threads ensures ThreadOk(s', u) {
      assert u != t ==> ThreadOk(s, u);
    }
  }

  lemma RetryPushKeeps(s: State, t: nat)
    requires Inv(s) && Enabled(s, SwapPush(t)) && s.header != s.threads[t].snap
    ensures Inv(Do(s, SwapPush(t)))
  {
    var s' := Do(s, SwapPush(t));
    SnapNow(s);
    forall u, v | u in s'.threads && v in s'.threads ensures ThreadsApart(s', u, v) {
      assert ThreadsApart(s, u, v);
    }
    forall u | u in s'.threads ensures ThreadOk(s', u) {
      assert ThreadOk(s, u);
    }
  }

  // ---- Runs ----

  ghost predicate Run(ss: seq<State>, ops: seq<Op>) {
    && |ss| == |ops| + 1 && (exists memory :: ss[0] == Initial(memory))
    && forall i :: 0 <= i < |ops| ==> Enabled(ss[i], ops[i]) && Timely(ss[i], ops[i]) && ss[i + 1] == Do(ss[i], ops[i])
  }

  /**
   In every timely run the completed calls, in the order they took effect, are a legal history
   of a sequential stack; the header's depth is that stack's length modulo 65536, its nodes
   are chained in memory from the header, and no recovered fault was a real one.
   */
  lemma {:induction false} Linearizable(ss: seq<State>, ops: seq<Op>, n: nat)
    requires Run(ss, ops) && n <= |ops|
    ensures Inv(ss[n]) && Replay(ss[n].effects) == Some(ss[n].stack) && !ss[n].crashed
    ensures ss[n].header.top == First(ss[n].stack) && ss[n].header.Depth() == |ss[n].stack| % HALF
    ensures Chain(ss[n].memory, ss[n].stack, 0)
  {
    hide Enabled, Timely, Do;
    if n > 0 {
      Linearizable(ss, ops, n - 1);
      StepKeeps(ss[n - 1], ops[n - 1]);
    }
    Fields(ss[n].mutations, |ss[n].stack|);
  }

  /**
   The sequence number tells apart exactly the mutation counts that differ modulo 65536, so a
   stale swap succeeds if and only if top and depth agree and a multiple of 65536 mutations went by.
   */
  lemma StaleSwapIff(s: State, snap: Header, at: nat, depth: nat)
    requires HeaderOk(s) && at <= s.mutations && snap.high == HighOf(at, depth)
    ensures s.header == snap <==>
      && snap.top == First(s.stack) && depth % HALF == |s.stack| % HALF
      && (s.mutations - at) % HALF == 0
  {
    Fields(s.mutations, |s.stack|);
    Fields(at, depth);
    SameResidue(at, s.mutations - at);
  }
}
