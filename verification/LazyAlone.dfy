/** The operations of lazy_atomic when one thread takes all the steps: each leaves exactly
    the state that its name says, after a bounded number of steps. */
module LazyAlone {
  import opened Options
  import opened LazyAtomic
  import opened LazyEffects

  ghost predicate Alone(steps: seq<Step>, i: nat, n: nat, t: Tid)
    requires n <= |steps|
  {
    forall m :: i <= m < n ==> steps[m].t == t
  }

  /** s is c but for the place of thread t. */
  ghost predicate But(c: State, s: State, t: Tid) {
    t in s.pcs && s == c.(pcs := c.pcs[t := s.pcs[t]])
  }

  /** The live values without the one in the cell. */
  function Rest(s: State): map<Addr, Value> {
    if s.cell.Ready? then s.heap - {s.cell.a} else s.heap
  }

  /** After a clear(). */
  function AfterClear(s: State): State {
    s.(cell := Empty, heap := Rest(s))
  }

  /** After the cell of c, which was empty, got the value x at a. */
  function AfterFill(c: State, op: Op, a: Addr, x: Value): State {
    c.(cell := Ready(a), heap := c.heap[a := x], calls := if op.Assign? then c.calls else c.calls + 1)
  }

  /** x at a is what op puts into the cell. */
  predicate Suits(c: State, op: Op, a: Addr, x: Value) {
    a !in c.heap && (op.Assign? ==> x == op.v)
  }

  /** In the clear of op, begun in state c. */
  ghost predicate Clearing(c: State, s: State, t: Tid, op: Op) {
    && t in s.pcs
    && match s.pcs[t]
       case ClearLoad(o) => o == op && But(c, s, t)
       case ClearCas(o, a) => o == op && c.cell == Ready(a) && But(c, s, t)
       case Destroy(o, a) => o == op && c.cell == Ready(a) && But(c.(cell := Empty), s, t)
       case _ => false
  }

  /** Filling the cell, which was empty in state c. */
  ghost predicate Filling(c: State, s: State, t: Tid, op: Op) {
    && t in s.pcs && c.cell.Empty?
    && match s.pcs[t]
       case ReserveLoad(o) => o == op && But(c, s, t)
       case ReserveCas(o) => o == op && But(c, s, t)
       case Make(o) => o == op && But(c.(cell := Pending), s, t)
       case PublishLoad(o, a) => o == op && Made(c, s, t, op, a)
       case PublishCas(o, a, seen) => o == op && seen == Pending && Made(c, s, t, op, a)
       case _ => false
  }

  /** Made, and not yet published. */
  ghost predicate Made(c: State, s: State, t: Tid, op: Op, a: Addr) {
    a in s.heap && Suits(c, op, a, s.heap[a]) && But(AfterFill(c, op, a, s.heap[a]).(cell := Pending), s, t)
  }

  /** The cell is filled. */
  ghost predicate Filled(c: State, s: State, t: Tid, op: Op) {
    && s.cell.Ready? && s.cell.a in s.heap
    && c.cell.Empty? && Suits(c, op, s.cell.a, s.heap[s.cell.a])
    && But(AfterFill(c, op, s.cell.a, s.heap[s.cell.a]), s, t)
  }

  /** Where a thread may stand in an operation begun in state c with the cell not pending. */
  ghost predicate AtWork(c: State, s: State, t: Tid, op: Op) {
    match op
    case Clear => Clearing(c, s, t, op)
    case Assign(_) => Clearing(c, s, t, op) || Filling(AfterClear(c), s, t, op)
    case Ptr =>
      || Filling(c, s, t, op)
      || (t in s.pcs && s.pcs[t].Spin? && (Filled(c, s, t, op) || (c.cell.Ready? && But(c, s, t))))
      || (t in s.pcs && s.pcs[t] == ReserveLoad(op) && c.cell.Ready? && But(c, s, t))
  }

  /** What the operation has done to c when it returns. */
  ghost predicate Done(c: State, s: State, t: Tid, op: Op) {
    match op
    case Clear => But(AfterClear(c), s, t)
    case Assign(_) => Filled(AfterClear(c), s, t, op)
    case Ptr =>
      && s.cell.Ready? && s.returned == c.returned + [s.cell]
      && if c.cell.Ready? then But(c, s.(returned := c.returned), t)
         else Filled(c, s.(returned := c.returned), t, op)
  }

  lemma ClearingStep(c: State, s: State, t: Tid, op: Op, step: Step, s': State)
    requires Clearing(c, s, t, op) && Next(s, step, s') && step.t == t && !c.cell.Pending? && !op.Ptr?
    ensures t in s'.pcs
    ensures Clearing(c, s', t, op) || (But(AfterClear(c), s', t) && s'.pcs[t] == Cleared(op))
  {
  }

  lemma FillingStep(c: State, s: State, t: Tid, op: Op, step: Step, s': State)
    requires Filling(c, s, t, op) && Next(s, step, s') && step.t == t
    ensures t in s'.pcs
    ensures Filling(c, s', t, op) || (Filled(c, s', t, op) && s'.pcs[t] == Reserved(op))
  {
  }

  lemma SpinningStep(c: State, s: State, t: Tid, step: Step, s': State)
    requires AtWork(c, s, t, Ptr) && Next(s, step, s') && step.t == t && !Filling(c, s, t, Ptr)
    ensures t in s'.pcs
    ensures if s'.pcs[t].Idle? then Done(c, s', t, Ptr) else AtWork(c, s', t, Ptr)
  {
  }

  lemma WorkStep(c: State, s: State, t: Tid, op: Op, step: Step, s': State)
    requires AtWork(c, s, t, op) && Next(s, step, s') && step.t == t && !c.cell.Pending?
    ensures t in s'.pcs && if s'.pcs[t].Idle? then Done(c, s', t, op) else AtWork(c, s', t, op)
  {
    if Clearing(c, s, t, op) {
      ClearingStep(c, s, t, op, step, s');
    } else if op.Assign? {
      FillingStep(AfterClear(c), s, t, op, step, s');
    } else if Filling(c, s, t, op) {
      FillingStep(c, s, t, op, step, s');
    } else {
      SpinningStep(c, s, t, step, s');
    }
  }

  lemma {:induction false} AtWorkTill(states: seq<State>, steps: seq<Step>, i: nat, n: nat, t: Tid, op: Op, m: nat)
    requires i < m <= n <= |steps| < |states| && Reaches(states, steps, n) && Inside(states, steps, i, n, t, op)
    requires Alone(steps, i, n, t) && !states[i].cell.Pending?
    ensures t in states[m].pcs
    ensures if states[m].pcs[t].Idle? then Done(states[i], states[m], t, op) else AtWork(states[i], states[m], t, op)
    decreases m
  {
    if m == i + 1 {
      Starts(states[i], steps[i], states[m]);
    } else {
      AtWorkTill(states, steps, i, n, t, op, m - 1);
      WorkStep(states[i], states[m - 1], t, op, steps[m - 1], states[m]);
    }
  }

  lemma Starts(s: State, step: Step, s': State)
    requires Next(s, step, s') && step.Begin? && !s.cell.Pending?
    ensures step.t in s'.pcs && !s'.pcs[step.t].Idle? && AtWork(s, s', step.t, step.op)
  {
  }

  /** A clear() that runs alone leaves the cell empty and deletes the value that was there. */
  lemma ClearAlone(states: seq<State>, steps: seq<Step>, i: nat, n: nat, t: Tid)
    requires n <= |steps| < |states| && Reaches(states, steps, n) && Inside(states, steps, i, n, t, Clear)
    requires Alone(steps, i, n, t) && !states[i].cell.Pending? && states[n].pcs[t].Idle?
    ensures states[n] == states[i].(cell := Empty, heap := Rest(states[i]))
  {
    AtWorkTill(states, steps, i, n, t, Clear, n);
    BackIdle(states, steps, i, n, t);
  }

  /** An assignment that runs alone leaves its argument in the cell, at an address of its
      own, and the old value deleted; the factory is not called. */
  lemma AssignAlone(states: seq<State>, steps: seq<Step>, i: nat, n: nat, t: Tid, v: Value)
    requires n <= |steps| < |states| && Reaches(states, steps, n) && Inside(states, steps, i, n, t, Assign(v))
    requires Alone(steps, i, n, t) && !states[i].cell.Pending? && states[n].pcs[t].Idle?
    ensures states[n].cell.Ready? && states[n].cell.a !in Rest(states[i])
    ensures states[n] == states[i].(cell := states[n].cell, heap := Rest(states[i])[states[n].cell.a := v])
  {
    AtWorkTill(states, steps, i, n, t, Assign(v), n);
    BackIdle(states, steps, i, n, t);
  }

  /** A ptr() that runs alone returns the pointer in the cell and changes nothing; when the
      cell is empty it first calls the factory, once, and stores the new value. */
  lemma PtrAlone(states: seq<State>, steps: seq<Step>, i: nat, n: nat, t: Tid)
    requires n <= |steps| < |states| && Reaches(states, steps, n) && Inside(states, steps, i, n, t, Ptr)
    requires Alone(steps, i, n, t) && !states[i].cell.Pending? && states[n].pcs[t].Idle?
    ensures states[n].cell.Ready? && states[n].returned == states[i].returned + [states[n].cell]
    ensures states[i].cell.Ready? ==> states[n] == states[i].(returned := states[n].returned)
    ensures states[i].cell.Empty? ==> var a := states[n].cell.a;
      a in states[n].heap && a !in states[i].heap &&
      states[n] == states[i].(cell := Ready(a), heap := states[i].heap[a := states[n].heap[a]],
                              calls := states[i].calls + 1, returned := states[i].returned + [Ready(a)])
  {
    AtWorkTill(states, steps, i, n, t, Ptr, n);
    BackIdle(states, steps, i, n, t);
  }

  lemma BackIdle(states: seq<State>, steps: seq<Step>, i: nat, n: nat, t: Tid)
    requires i < n <= |steps| < |states| && Reaches(states, steps, n) && steps[i].Begin? && steps[i].t == t
    ensures t in states[i].pcs && states[i].pcs[t] == Idle && states[i].pcs[t := Idle] == states[i].pcs
  {
    assert Next(states[i], steps[i], states[i + 1]);
  }

  /** After an assignment alone the next ptr() alone gives the assigned value, without the
      factory. */
  lemma AssignThenPtr(states: seq<State>, steps: seq<Step>, i: nat, k: nat, n: nat, t: Tid, u: Tid, v: Value)
    requires i < k < n <= |steps| < |states| && Reaches(states, steps, n) && !states[i].cell.Pending?
    requires Inside(states, steps, i, k, t, Assign(v)) && Alone(steps, i, k, t) && states[k].pcs[t].Idle?
    requires Inside(states, steps, k, n, u, Ptr) && Alone(steps, k, n, u) && states[n].pcs[u].Idle?
    ensures states[n].returned == states[i].returned + [states[n].cell] && states[n].calls == states[i].calls
    ensures states[n].cell.Ready? && states[n].cell.a in states[n].heap && states[n].heap[states[n].cell.a] == v
  {
    AssignAlone(states, steps, i, k, t, v);
    PtrAlone(states, steps, k, n, u);
  }

  // ------------------------------------------------------------- how many steps

  /** How many steps an operation has still to take if no compare-and-swap fails and the
      cell is not pending by another thread. */
  function Left(pc: PC): nat {
    match pc
    case ClearLoad(_) => 9
    case ClearCas(_, _) => 8
    case Destroy(_, _) => 7
    case ReserveLoad(_) => 6
    case ReserveCas(_) => 5
    case Make(_) => 4
    case PublishLoad(_, _) => 3
    case PublishCas(_, _, _) => 2
    case Spin => 1
    case Idle => 0
  }

  /** How many of the steps from the i-th to the n-th fail spuriously. */
  ghost function Failures(steps: seq<Step>, i: nat, n: nat): nat
    requires i <= n <= |steps|
  {
    if i == n then 0
    else Failures(steps, i, n - 1) + if steps[n - 1].Run? && steps[n - 1].fails then 1 else 0
  }

  lemma StepGoesOn(c: State, s: State, t: Tid, op: Op, step: Step, s': State)
    requires AtWork(c, s, t, op) && Next(s, step, s') && step.t == t && !c.cell.Pending? && step.Run?
    ensures t in s'.pcs && Left(s'.pcs[t]) + 1 <= Left(s.pcs[t]) + if step.fails then 2 else 0
  {
  }

  /** Alone, an operation takes at most ten steps, and two more for each compare-and-swap
      that fails spuriously. */
  lemma {:induction false} AloneIsShort(states: seq<State>, steps: seq<Step>, i: nat, n: nat, t: Tid, op: Op)
    requires n <= |steps| < |states| && Reaches(states, steps, n) && Inside(states, steps, i, n, t, op)
    requires Alone(steps, i, n, t) && !states[i].cell.Pending?
    ensures n - i + Left(states[n].pcs[t]) <= 10 + 2 * Failures(steps, i, n)
    decreases n
  {
    if n == i + 1 {
      Starts(states[i], steps[i], states[n]);
    } else {
      AtWorkTill(states, steps, i, n, t, op, n - 1);
      AloneIsShort(states, steps, i, n - 1, t, op);
      assert Next(states[n - 1], steps[n - 1], states[n]);
      StepGoesOn(states[i], states[n - 1], t, op, steps[n - 1], states[n]);
    }
  }
}
