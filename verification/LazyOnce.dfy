/** lazy_atomic initialises once: which operations a caller may allow besides ptr(). */
module LazyOnce {
  import opened Options
  import opened LazyAtomic

  /** The operations that may occur in a run besides ptr(). */
  datatype Policy = Policy(clears: bool, assigns: bool)

  const ONLY_PTR: Policy := Policy(false, false)

  predicate Permitted(p: Policy, step: Step) {
    step.Begin? ==> (step.op.Clear? ==> p.clears) && (step.op.Assign? ==> p.assigns)
  }

  ghost predicate Allowed(p: Policy, s: State, step: Step, s': State) {
    Next(s, step, s') && Permitted(p, step)
  }

  /** A run whose first n steps keep to the policy. */
  ghost predicate Follows(p: Policy, states: seq<State>, steps: seq<Step>, n: nat)
    requires n <= |steps| < |states|
  {
    Init(states[0]) && forall m :: 0 <= m < n ==> Allowed(p, states[m], steps[m], states[m + 1])
  }

  /** Some run that keeps to the policy leads to s. */
  ghost predicate Reached(p: Policy, s: State) {
    exists states, steps :: Leads(p, states, steps, s)
  }

  ghost predicate Leads(p: Policy, states: seq<State>, steps: seq<Step>, s: State) {
    |states| == |steps| + 1 && Follows(p, states, steps, |steps|) && states[|steps|] == s
  }

  lemma FollowsIsRun(p: Policy, states: seq<State>, steps: seq<Step>, n: nat)
    requires n <= |steps| < |states| && Follows(p, states, steps, n)
    ensures Reaches(states, steps, n)
  {
    forall m | 0 <= m < n ensures Next(states[m], steps[m], states[m + 1]) {
      assert Allowed(p, states[m], steps[m], states[m + 1]);
    }
  }

  // -------------------------------------------------------------- ptr() alone

  /** Without clear and assignment: who has called the factory, and what it gave. */
  ghost predicate Once(s: State) {
    && (s.cell.Empty? ==> s.calls == 0)
    && (s.cell.Ready? ==> s.calls == 1)
    && (forall t :: t in s.pcs ==> OnceThread(s, s.pcs[t]))
    && (forall i :: 0 <= i < |s.returned| ==> s.cell.Ready? && s.returned[i] == s.cell)
  }

  ghost predicate OnceThread(s: State, pc: PC) {
    match pc
    case Make(op) => op.Ptr? && s.calls == 0
    case PublishLoad(op, _) => op.Ptr? && s.calls == 1
    case PublishCas(op, _, _) => op.Ptr? && s.calls == 1
    case Spin => !s.cell.Empty?
    case Idle => true
    case ReserveLoad(op) => op.Ptr?
    case ReserveCas(op) => op.Ptr?
    case _ => false
  }

  lemma StepKeepsOnce(s: State, x: Aux, step: Step, s': State)
    requires Inv(s, x) && Once(s) && Next(s, step, s') && Permitted(ONLY_PTR, step)
    ensures Once(s')
  {
    var t := step.t;
    assert ThreadOk(s.pcs[t], t, x) && OnceThread(s, s.pcs[t]);
    forall u | u in s'.pcs ensures OnceThread(s', s'.pcs[u]) {
      assert ThreadOk(s.pcs[u], u, x) && OnceThread(s, s.pcs[u]);
    }
    assert s.returned != [] ==> s.returned[0] == s.cell && s.cell.Ready?;
    assert s.returned != [] ==> s'.cell == s.cell;
  }

  lemma {:induction false} RunKeepsOnce(states: seq<State>, steps: seq<Step>, n: nat)
    requires n <= |steps| < |states| && Follows(ONLY_PTR, states, steps, n)
    ensures Once(states[n])
  {
    if n > 0 {
      RunKeepsOnce(states, steps, n - 1);
      FollowsIsRun(ONLY_PTR, states, steps, n - 1);
      var x := RunKeepsInv(states, steps, n - 1);
      StepKeepsOnce(states[n - 1], x, steps[n - 1], states[n]);
    }
  }

  /** Without clear and assignment the factory runs at most once, and every ptr() that
      has returned gave the same pointer, which is not null. */
  lemma FactoryRunsOnce(s: State)
    requires Reached(ONLY_PTR, s)
    ensures s.calls <= 1 && (s.returned != [] ==> s.calls == 1)
    ensures forall i, j :: 0 <= i < |s.returned| && 0 <= j < |s.returned| ==>
              s.returned[i].Ready? && s.returned[i] == s.returned[j]
  {
    var states, steps :| Leads(ONLY_PTR, states, steps, s);
    RunKeepsOnce(states, steps, |steps|);
    FollowsIsRun(ONLY_PTR, states, steps, |steps|);
    var x := RunKeepsInv(states, steps, |steps|);
    assert s.returned != [] ==> s.returned[0] == s.cell && s.cell.Ready?;
    if s.cell.Pending? {
      assert ThreadOk(s.pcs[x.init.value], x.init.value, x) && OnceThread(s, s.pcs[x.init.value]);
    }
  }

  // ------------------------------------------------------------ reaching states

  lemma LeadsOn(p: Policy, states: seq<State>, steps: seq<Step>, s: State, step: Step, s': State)
    requires Leads(p, states, steps, s) && Next(s, step, s') && Permitted(p, step)
    ensures Leads(p, states + [s'], steps + [step], s')
  {
    var all, more := states + [s'], steps + [step];
    forall m | 0 <= m < |more| ensures Allowed(p, all[m], more[m], all[m + 1]) {
      if m < |steps| { assert Allowed(p, states[m], steps[m], states[m + 1]); }
    }
  }

  /** What holds at the start and is kept by every step the policy permits. */
  ghost predicate Kept(p: Policy, r: State -> bool) {
    && (forall s {:trigger Init(s)} :: Init(s) ==> r(s))
    && (forall s, step, s' {:trigger Next(s, step, s')} :: r(s) && Next(s, step, s') && Permitted(p, step) ==> r(s'))
  }

  lemma ReachedIsKept(p: Policy)
    ensures Kept(p, (s: State) => Reached(p, s))
  {
    var r := (s: State) => Reached(p, s);
    forall s | Init(s) ensures r(s) {
      var states: seq<State>, steps: seq<Step> := [s], [];
      assert Leads(p, states, steps, s);
    }
    forall s, step, s' | r(s) && Next(s, step, s') && Permitted(p, step) ensures r(s') {
      var states, steps :| Leads(p, states, steps, s);
      LeadsOn(p, states, steps, s, step, s');
    }
  }

  lemma Go(p: Policy, r: State -> bool, s: State, step: Step, s': State)
    requires Kept(p, r) && r(s) && Next(s, step, s') && Permitted(p, step)
    ensures r(s')
  {
  }

  /** A step of thread t, whose allocator picks a and whose factory makes x. */
  lemma Run1(p: Policy, r: State -> bool, s: State, t: Tid, a: Addr, x: Value) returns (s': State)
    requires Kept(p, r) && r(s) && t in s.pcs && !s.pcs[t].Idle? && a !in s.heap
    ensures s' == Stepped(s, t, a, x, false) && r(s')
  {
    s' := Stepped(s, t, a, x, false);
    Go(p, r, s, Run(t, a, x, false), s');
  }

  /** The state of two threads, 0 and 1. */
  function Two(cell: Word, heap: map<Addr, Value>, p0: PC, p1: PC, calls: nat, returned: seq<Word>): State {
    State(cell, heap, map[0 := p0, 1 := p1], calls, returned)
  }

  /** Thread 0 finds the cell empty and reserves it. */
  lemma Reserves(p: Policy, r: State -> bool, heap: map<Addr, Value>, p1: PC, calls: nat, returned: seq<Word>,
                 a: Addr, x: Value) returns (s: State)
    requires Kept(p, r) && r(Two(Empty, heap, Idle, p1, calls, returned)) && a !in heap
    ensures r(s) && s == Two(Pending, heap, Make(Ptr), p1, calls, returned)
  {
    s := Two(Empty, heap, ReserveLoad(Ptr), p1, calls, returned);
    Go(p, r, Two(Empty, heap, Idle, p1, calls, returned), Begin(0, Ptr), s);
    s := Run1(p, r, s, 0, a, x);
    s := Run1(p, r, s, 0, a, x);
  }

  /** It calls the factory, which allocates a, and publishes. */
  lemma Publishes(p: Policy, r: State -> bool, heap: map<Addr, Value>, p1: PC, calls: nat, returned: seq<Word>,
                  a: Addr, x: Value) returns (s: State)
    requires Kept(p, r) && r(Two(Pending, heap, Make(Ptr), p1, calls, returned)) && a !in heap
    ensures r(s) && s == Two(Ready(a), heap[a := x], Spin, p1, calls + 1, returned)
  {
    s := Run1(p, r, Two(Pending, heap, Make(Ptr), p1, calls, returned), 0, a, x);
    assert s == Two(Pending, heap[a := x], PublishLoad(Ptr, a), p1, calls + 1, returned);
    var s' := Two(Pending, heap[a := x], PublishCas(Ptr, a, Pending), p1, calls + 1, returned);
    Go(p, r, s, Run(0, a, x, false), s');
    s := Two(Ready(a), heap[a := x], Spin, p1, calls + 1, returned);
    Go(p, r, s', Run(0, a, x, false), s);
  }

  lemma Initialises(p: Policy, r: State -> bool, heap: map<Addr, Value>, p1: PC, calls: nat, returned: seq<Word>,
                    a: Addr, x: Value) returns (s: State)
    requires Kept(p, r) && r(Two(Empty, heap, Idle, p1, calls, returned)) && a !in heap
    ensures r(s) && s == Two(Ready(a), heap[a := x], Spin, p1, calls + 1, returned)
  {
    s := Reserves(p, r, heap, p1, calls, returned, a, x);
    s := Publishes(p, r, heap, p1, calls, returned, a, x);
  }

  /** Which operation is allowed besides ptr(). */
  predicate Empties(p: Policy, op: Op) {
    (op.Clear? && p.clears) || (op.Assign? && p.assigns)
  }

  /** Thread 1 empties the cell, in clear() or at the beginning of an assignment. */
  lemma Emptied(p: Policy, r: State -> bool, op: Op, a: Addr, x: Value, p0: PC, returned: seq<Word>)
    returns (s: State)
    requires Empties(p, op) && Kept(p, r) && r(Two(Ready(a), map[a := x], p0, Idle, 1, returned))
    ensures r(s) && s == Two(Empty, map[a := x], p0, Destroy(op, a), 1, returned)
  {
    var b := a + 1;
    s := Two(Ready(a), map[a := x], p0, ClearLoad(op), 1, returned);
    Go(p, r, Two(Ready(a), map[a := x], p0, Idle, 1, returned), Begin(1, op), s);
    s := Run1(p, r, s, 1, b, x);
    s := Run1(p, r, s, 1, b, x);
  }

  lemma FirstUse(p: Policy, r: State -> bool, x: Value) returns (s: State)
    requires Kept(p, r)
    ensures r(s) && s == Two(Ready(5), map[5 := x], Spin, Idle, 1, [])
  {
    var s0 := Two(Empty, map[], Idle, Idle, 0, []);
    assert Init(s0);
    s := Initialises(p, r, map[], Idle, 0, [], 5, x);
  }

  /** The cell is emptied between thread 0's publish and its last load: null. */
  lemma ReturnsNull(p: Policy, r: State -> bool, op: Op, x: Value) returns (s: State)
    requires Empties(p, op) && Kept(p, r)
    ensures r(s) && s.returned == [Empty]
  {
    s := FirstUse(p, r, x);
    s := Emptied(p, r, op, 5, x, Spin, []);
    s := Run1(p, r, s, 0, 6, x);
  }

  /** The cell is emptied between two uses: a second call, and another pointer. */
  lemma CallsTwice(p: Policy, r: State -> bool, op: Op, x: Value) returns (s: State)
    requires Empties(p, op) && Kept(p, r)
    ensures r(s) && s.calls == 2 && s.returned == [Ready(5), Ready(6)]
  {
    s := FirstUse(p, r, x);
    s := Run1(p, r, s, 0, 6, x);
    assert s == Two(Ready(5), map[5 := x], Idle, Idle, 1, [Ready(5)]);
    s := Emptied(p, r, op, 5, x, Idle, [Ready(5)]);
    s := Initialises(p, r, map[5 := x], Destroy(op, 5), 1, [Ready(5)], 6, x);
    s := Run1(p, r, s, 0, 7, x);
  }

  // -------------------------------------------------------------- exact answers

  ghost predicate CalledOnce(p: Policy) {
    forall s :: Reached(p, s) ==> s.calls <= 1
  }

  ghost predicate NeverNull(p: Policy) {
    forall s :: Reached(p, s) ==> Empty !in s.returned
  }

  ghost predicate OnePointer(p: Policy) {
    forall s :: Reached(p, s) ==>
      forall i, j :: 0 <= i < |s.returned| && 0 <= j < |s.returned| ==> s.returned[i] == s.returned[j]
  }

  /** The factory runs at most once, if and only if neither clear nor assignment is
      allowed; only then is no pointer null; and only then are all pointers the same. */
  lemma OnceIffOnlyPtr(p: Policy)
    ensures CalledOnce(p) <==> !p.clears && !p.assigns
    ensures NeverNull(p) <==> !p.clears && !p.assigns
    ensures OnePointer(p) <==> !p.clears && !p.assigns
  {
    if p.clears || p.assigns {
      ReachedIsKept(p);
      var r := (s: State) => Reached(p, s);
      var x: Value := *;
      var op := if p.assigns then Assign(x) else Clear;
      var missed := ReturnsNull(p, r, op, x);
      assert Reached(p, missed) && missed.returned[0] == Empty;
      var twice := CallsTwice(p, r, op, x);
      assert Reached(p, twice) && twice.returned[0] != twice.returned[1];
    } else {
      forall s | Reached(p, s)
        ensures s.calls <= 1 && Empty !in s.returned
        ensures forall i, j :: 0 <= i < |s.returned| && 0 <= j < |s.returned| ==> s.returned[i] == s.returned[j]
      {
        FactoryRunsOnce(s);
      }
    }
  }
}
