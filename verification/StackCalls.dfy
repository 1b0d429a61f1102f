/** The calls of the lock-free list: each takes effect exactly once between its beginning and
    its return, whatever other threads do; and no node leaks. */
module StackCalls {
  import opened Options
  import opened LockFreeStack

  /** emplace_front, pop_and_release_front and release. */
  datatype Call = Push(v: Item) | Pop | Release

  predicate Begins(step: Step, t: Tid, call: Call) {
    match step
    case BeginPush(u, _, v) => u == t && call == Push(v)
    case BeginPop(u) => u == t && call == Pop
    case BeginDrain(u) => u == t && call == Release
    case _ => false
  }

  /** Thread t begins the call with step i and is inside it after every step up to the n-th. */
  ghost predicate Inside(states: seq<State>, steps: seq<Step>, i: nat, n: nat, t: Tid, call: Call)
    requires n <= |steps| < |states|
  {
    && i < n && Begins(steps[i], t, call) && t in states[i].threads
    && (forall m :: i < m < n ==> t in states[m].threads && !states[m].threads[t].pc.Idle?)
    && t in states[n].threads
  }

  /** The effects of thread t in the steps from the i-th to the n-th. */
  ghost function EffectsBy(states: seq<State>, steps: seq<Step>, i: nat, n: nat, t: Tid): seq<Effect>
    requires i <= n <= |steps| < |states|
  {
    if i == n then []
    else EffectsBy(states, steps, i, n - 1, t) + OwnEffect(states[n - 1], steps[n - 1], t)
  }

  ghost function OwnEffect(s: State, step: Step, t: Tid): seq<Effect> {
    if step.t == t && EffectOf(s, step) != NoEffect then [EffectOf(s, step)] else []
  }

  /** What a call that has returned has done, out being what the thread had before. */
  ghost predicate Returned(call: Call, t: Tid, es: seq<Effect>, before: seq<Item>, out: seq<Item>) {
    match call
    case Push(v) => es == [Pushed(v)] && out == before
    case Pop =>
      || (es == [Popped(t)] && |out| == |before| + 1 && before <= out)
      || (es == [] && out == before)
    case Release => es == [Drained(t)] && before <= out
  }

  /** And one that has come to pc. */
  ghost predicate SoFar(call: Call, t: Tid, es: seq<Effect>, before: seq<Item>, l: Local) {
    match l.pc
    case PushLoad(_, v) => call == Push(v) && es == [] && l.out == before
    case PushLink(_, v, _) => call == Push(v) && es == [] && l.out == before
    case PushCas(_, v, _) => call == Push(v) && es == [] && l.out == before
    case PopLoad => call == Pop && es == [] && l.out == before
    case PopNext(_) => call == Pop && es == [] && l.out == before
    case PopCas(_, _) => call == Pop && es == [] && l.out == before
    case PopTake(_) => call == Pop && es == [Popped(t)] && l.out == before
    case PopFree(_, _) => call == Pop && es == [Popped(t)] && l.out == before
    case DrainLoad => call == Release && es == [] && l.out == before
    case DrainCas(_) => call == Release && es == [] && l.out == before
    case DrainWalk(_) => call == Release && es == [Drained(t)] && before <= l.out
    case DrainFree(_, _) => call == Release && es == [Drained(t)] && before <= l.out
    case Idle => Returned(call, t, es, before, l.out)
  }

  lemma CallBegins(s: State, step: Step, s': State, t: Tid, call: Call)
    requires Next(s, step, s') && Begins(step, t, call)
    ensures t in s'.threads && !s'.threads[t].pc.Idle?
    ensures OwnEffect(s, step, t) == [] && SoFar(call, t, [], s.threads[t].out, s'.threads[t])
  {
  }

  lemma CallGoesOn(s: State, step: Step, s': State, t: Tid, call: Call, es: seq<Effect>, before: seq<Item>)
    requires Next(s, step, s') && t in s.threads && !s.threads[t].pc.Idle? && SoFar(call, t, es, before, s.threads[t])
    ensures t in s'.threads && SoFar(call, t, es + OwnEffect(s, step, t), before, s'.threads[t])
    ensures s'.threads[t].pc.Idle? && es + OwnEffect(s, step, t) == [] ==> s.head.ptr.Null?
  {
    assert es + [] == es;
    if step.t == t {
    } else {
      assert s'.threads[t] == s.threads[t];
    }
  }

  /** After n steps the thread is still inside its call, or back from it. */
  ghost predicate Standing(states: seq<State>, steps: seq<Step>, i: nat, n: nat, t: Tid, call: Call)
    requires i < n <= |steps| < |states| && t in states[i].threads
  {
    var es := EffectsBy(states, steps, i, n, t);
    && t in states[n].threads && SoFar(call, t, es, states[i].threads[t].out, states[n].threads[t])
    && (states[n].threads[t].pc.Idle? && es == [] ==> states[n - 1].head.ptr.Null?)
  }

  lemma StandsAfterOne(states: seq<State>, steps: seq<Step>, i: nat, t: Tid, call: Call)
    requires i < |steps| < |states| && Next(states[i], steps[i], states[i + 1]) && Begins(steps[i], t, call)
    ensures t in states[i].threads && Standing(states, steps, i, i + 1, t, call)
  {
    assert EffectsBy(states, steps, i, i, t) == [];
    CallBegins(states[i], steps[i], states[i + 1], t, call);
  }

  lemma StandsOn(states: seq<State>, steps: seq<Step>, i: nat, n: nat, t: Tid, call: Call)
    requires i < n < |steps| < |states| && Next(states[n], steps[n], states[n + 1]) && t in states[i].threads
    requires Standing(states, steps, i, n, t, call) && !states[n].threads[t].pc.Idle?
    ensures Standing(states, steps, i, n + 1, t, call)
  {
    var es := EffectsBy(states, steps, i, n, t);
    CallGoesOn(states[n], steps[n], states[n + 1], t, call, es, states[i].threads[t].out);
  }

  lemma {:induction false} InsideStands(states: seq<State>, steps: seq<Step>, i: nat, n: nat, t: Tid, call: Call)
    requires n <= |steps| < |states| && Run(states, steps, n) && Inside(states, steps, i, n, t, call)
    ensures Standing(states, steps, i, n, t, call)
    decreases n
  {
    if n == i + 1 {
      StandsAfterOne(states, steps, i, t, call);
    } else {
      InsideStands(states, steps, i, n - 1, t, call);
      StandsOn(states, steps, i, n - 1, t, call);
    }
  }

  /** Between its beginning and its return a push takes effect exactly once, with its
      argument; a release exactly once; a pop exactly once, and then it hands out one
      value, or not at all, and then the list was empty at its last step. */
  lemma CallTakesEffectOnce(states: seq<State>, steps: seq<Step>, i: nat, n: nat, t: Tid, call: Call)
    requires n <= |steps| < |states| && Run(states, steps, n) && Inside(states, steps, i, n, t, call)
    requires states[n].threads[t].pc.Idle?
    ensures var es := EffectsBy(states, steps, i, n, t);
      && Returned(call, t, es, states[i].threads[t].out, states[n].threads[t].out)
      && (es == [] ==> states[n - 1].head.ptr.Null?)
  {
    InsideStands(states, steps, i, n, t, call);
  }

  // ------------------------------------------------------------------ no leaks

  lemma {:induction false} AsManyValues(heap: map<Addr, Cell>, p: Ptr, c: Links)
    requires Chain(heap, p, c) && NoRepeat(c)
    ensures |Values(heap, c)| == |Addrs(c)|
    decreases c
  {
    match c
    case End =>
    case Node(a, rest) =>
      AsManyValues(heap, heap[a].next, rest);
      assert Addrs(c) == {a} + Addrs(rest);
  }

  lemma IdleOwnsNone(s: State, x: Aux, a: Addr)
    requires Inv(s, x) && a in s.heap && forall t :: t in s.threads ==> s.threads[t].pc.Idle?
    ensures a in x.owner && x.owner[a] == Stack
  {
    assert forall t :: t in s.threads ==> ThreadInv(s.heap, s.head, x.owner, t, s.threads[t], x.priv[t]);
  }

  lemma IdleHeapIsStack(s: State, x: Aux)
    requires Inv(s, x) && forall t :: t in s.threads ==> s.threads[t].pc.Idle?
    ensures s.heap.Keys == Addrs(x.chain)
  {
    forall a ensures a in s.heap.Keys <==> a in Addrs(x.chain) {
      if a in s.heap { IdleOwnsNone(s, x, a); }
    }
  }

  /** When every thread is between calls, there are as many live nodes as values on the
      stack. */
  lemma NothingLeaks(s: State, q: Spec)
    requires Simulates(s, q) && forall t :: t in s.threads ==> s.threads[t].pc.Idle?
    ensures |s.heap| == |q.stack|
  {
    var x :| Represents(s, x, q);
    IdleHeapIsStack(s, x);
    AsManyValues(s.heap, s.head.ptr, x.chain);
    assert |s.heap.Keys| == |s.heap|;
  }
}
