/** lazy_atomic: a cell that is empty, pending or holds a pointer, initialised on first
    use, cleared and assigned by any number of threads. Compare-and-swaps compare the
    stored word, may fail spuriously, and freed addresses may come back. */
module LazyAtomic {
  import opened Options

  type Addr = int
  type Tid = int
  type Value(==, !new, 00)

  /** node: 0x0, 0x1 or the address of a value. */
  datatype Word = Empty | Pending | Ready(a: Addr)

  datatype Op = Ptr | Clear | Assign(v: Value)

  datatype PC =
    | Idle
    | ClearLoad(op: Op)
    | ClearCas(op: Op, a: Addr)
    | Destroy(op: Op, a: Addr)
    | ReserveLoad(op: Op)
    | ReserveCas(op: Op)
    | Make(op: Op)
    | PublishLoad(op: Op, a: Addr)
    | PublishCas(op: Op, a: Addr, seen: Word)
    | Spin

  /** heap holds the live values; calls counts the factory's, and returned lists what
      ptr() gave back, in order. */
  datatype State = State(cell: Word, heap: map<Addr, Value>, pcs: map<Tid, PC>, calls: nat, returned: seq<Word>)

  /** Run is one atomic step of a thread inside an operation: fails makes a compare-and-swap
      fail spuriously, addr is the address the allocator picks, and made what the factory
      makes. */
  datatype Step =
    | Begin(t: Tid, op: Op)
    | Run(t: Tid, addr: Addr, made: Value, fails: bool)

  /** operator= clears first. */
  function Entry(op: Op): PC {
    if op.Ptr? then ReserveLoad(op) else ClearLoad(op)
  }

  /** After clear(): operator= goes on to reserve. */
  function Cleared(op: Op): PC {
    if op.Assign? then ReserveLoad(op) else Idle
  }

  /** After the reserve loop found the cell taken, or after the publish. */
  function Reserved(op: Op): PC {
    if op.Ptr? then Spin else Idle
  }

  /** ptr() initialises by the factory, operator= by moving its argument. */
  function Stepped(s: State, t: Tid, addr: Addr, made: Value, fails: bool): State
    requires t in s.pcs
  {
    match s.pcs[t]
    case Idle => s
    case ClearLoad(op) =>
      s.(pcs := s.pcs[t := if s.cell.Ready? then ClearCas(op, s.cell.a) else Cleared(op)])
    case ClearCas(op, a) =>
      if s.cell == Ready(a) && !fails then s.(cell := Empty, pcs := s.pcs[t := Destroy(op, a)])
      else s.(pcs := s.pcs[t := ClearLoad(op)])
    case Destroy(op, a) => s.(heap := s.heap - {a}, pcs := s.pcs[t := Cleared(op)])
    case ReserveLoad(op) => s.(pcs := s.pcs[t := if s.cell.Empty? then ReserveCas(op) else Reserved(op)])
    case ReserveCas(op) =>
      if s.cell == Empty && !fails then s.(cell := Pending, pcs := s.pcs[t := Make(op)])
      else s.(pcs := s.pcs[t := ReserveLoad(op)])
    case Make(op) =>
      s.(heap := s.heap[addr := if op.Assign? then op.v else made], pcs := s.pcs[t := PublishLoad(op, addr)],
         calls := if op.Assign? then s.calls else s.calls + 1)
    case PublishLoad(op, a) => s.(pcs := s.pcs[t := PublishCas(op, a, s.cell)])
    case PublishCas(op, a, seen) =>
      if s.cell == seen && !fails then s.(cell := Ready(a), pcs := s.pcs[t := Reserved(op)])
      else s.(pcs := s.pcs[t := PublishLoad(op, a)])
    case Spin =>
      if s.cell.Pending? then s else s.(pcs := s.pcs[t := Idle], returned := s.returned + [s.cell])
  }

  ghost predicate Next(s: State, step: Step, s': State) {
    && step.t in s.pcs
    && match step
       case Begin(t, op) => s.pcs[t].Idle? && s' == s.(pcs := s.pcs[t := Entry(op)])
       case Run(t, addr, made, fails) =>
         !s.pcs[t].Idle? && (s.pcs[t].Make? ==> addr !in s.heap) && s' == Stepped(s, t, addr, made, fails)
  }

  ghost predicate Init(s: State) {
    && s.cell == Empty && s.heap == map[] && s.calls == 0 && s.returned == []
    && forall t :: t in s.pcs ==> s.pcs[t] == Idle
  }

  // ---------------------------------------------------------------- ownership

  datatype Owner = Cell | Thread(t: Tid)

  /** Auxiliary: the one owner of every live value, and the thread that reserved the cell. */
  datatype Aux = Aux(owner: map<Addr, Owner>, init: Option<Tid>)

  /** Between reserve and publish. */
  predicate Initialising(pc: PC) {
    pc.Make? || pc.PublishLoad? || pc.PublishCas?
  }

  /** The value a thread owns: one not yet published, or one taken out to be deleted. */
  function Holds(pc: PC): Option<Addr> {
    match pc
    case Destroy(_, a) => Some(a)
    case PublishLoad(_, a) => Some(a)
    case PublishCas(_, a, _) => Some(a)
    case _ => None
  }

  /** What is about to be published is the argument of the assignment. */
  ghost predicate HoldsArgument(pc: PC, heap: map<Addr, Value>) {
    match pc
    case PublishLoad(op, a) => op.Assign? ==> a in heap && heap[a] == op.v
    case PublishCas(op, a, _) => op.Assign? ==> a in heap && heap[a] == op.v
    case _ => true
  }

  ghost predicate ThreadOk(pc: PC, t: Tid, x: Aux) {
    && (Initialising(pc) <==> x.init == Some(t))
    && (Holds(pc).Some? ==> Holds(pc).value in x.owner && x.owner[Holds(pc).value] == Thread(t))
    && (pc.PublishCas? ==> pc.seen == Pending)
  }

  ghost predicate OwnerOk(s: State, a: Addr, o: Owner) {
    match o
    case Cell => s.cell == Ready(a)
    case Thread(t) => t in s.pcs && Holds(s.pcs[t]) == Some(a)
  }

  ghost predicate Inv(s: State, x: Aux) {
    && x.owner.Keys == s.heap.Keys
    && (forall a :: a in x.owner ==> OwnerOk(s, a, x.owner[a]))
    && (s.cell.Ready? ==> s.cell.a in x.owner && x.owner[s.cell.a] == Cell)
    && (s.cell.Pending? <==> x.init.Some?)
    && (x.init.Some? ==> x.init.value in s.pcs)
    && (forall t :: t in s.pcs ==> ThreadOk(s.pcs[t], t, x))
    && (forall t :: t in s.pcs ==> HoldsArgument(s.pcs[t], s.heap))
  }

  ghost function AuxAfter(s: State, x: Aux, step: Step): Aux {
    if step.Run? && step.t in s.pcs then
      var t, hit := step.t, !step.fails;
      match s.pcs[t]
      case ClearCas(_, a) => if s.cell == Ready(a) && hit then x.(owner := x.owner[a := Thread(t)]) else x
      case Destroy(_, a) => x.(owner := x.owner - {a})
      case ReserveCas(_) => if s.cell == Empty && hit then x.(init := Some(t)) else x
      case Make(_) => x.(owner := x.owner[step.addr := Thread(t)])
      case PublishCas(_, a, seen) => if s.cell == seen && hit then Aux(x.owner[a := Cell], None) else x
      case _ => x
    else x
  }

  lemma StepKeepsThread(s: State, x: Aux, step: Step, s': State, t: Tid)
    requires Inv(s, x) && Next(s, step, s') && t in s.pcs
    ensures ThreadOk(s'.pcs[t], t, AuxAfter(s, x, step))
  {
    assert ThreadOk(s.pcs[step.t], step.t, x) && ThreadOk(s.pcs[t], t, x);
  }

  lemma StepKeepsArgument(s: State, x: Aux, step: Step, s': State, t: Tid)
    requires Inv(s, x) && Next(s, step, s') && t in s.pcs
    ensures HoldsArgument(s'.pcs[t], s'.heap)
  {
    assert ThreadOk(s.pcs[step.t], step.t, x) && ThreadOk(s.pcs[t], t, x);
    assert HoldsArgument(s.pcs[t], s.heap);
  }

  lemma StepKeepsOwner(s: State, x: Aux, step: Step, s': State, a: Addr)
    requires Inv(s, x) && Next(s, step, s') && a in AuxAfter(s, x, step).owner
    ensures OwnerOk(s', a, AuxAfter(s, x, step).owner[a])
  {
    assert ThreadOk(s.pcs[step.t], step.t, x);
    if a in x.owner { assert OwnerOk(s, a, x.owner[a]); }
  }

  lemma StepKeepsInv(s: State, x: Aux, step: Step, s': State)
    requires Inv(s, x) && Next(s, step, s')
    ensures Inv(s', AuxAfter(s, x, step))
  {
    var x' := AuxAfter(s, x, step);
    assert ThreadOk(s.pcs[step.t], step.t, x);
    forall t | t in s'.pcs ensures ThreadOk(s'.pcs[t], t, x') {
      StepKeepsThread(s, x, step, s', t);
    }
    forall t | t in s'.pcs ensures HoldsArgument(s'.pcs[t], s'.heap) {
      StepKeepsArgument(s, x, step, s', t);
    }
    forall a | a in x'.owner ensures OwnerOk(s', a, x'.owner[a]) {
      StepKeepsOwner(s, x, step, s', a);
    }
  }

  /** A run: each of the first n steps leads from one state to the next. */
  ghost predicate Reaches(states: seq<State>, steps: seq<Step>, n: nat)
    requires n <= |steps| < |states|
  {
    Init(states[0]) && forall m :: 0 <= m < n ==> Next(states[m], steps[m], states[m + 1])
  }

  lemma {:induction false} RunKeepsInv(states: seq<State>, steps: seq<Step>, n: nat) returns (x: Aux)
    requires n <= |steps| < |states| && Reaches(states, steps, n)
    ensures Inv(states[n], x)
  {
    if n == 0 {
      x := Aux(map[], None);
    } else {
      var before := RunKeepsInv(states, steps, n - 1);
      StepKeepsInv(states[n - 1], before, steps[n - 1], states[n]);
      x := AuxAfter(states[n - 1], before, steps[n - 1]);
    }
  }

  /** The cell is pending exactly while one thread is between reserve and publish. */
  lemma PendingHasOneInitialiser(states: seq<State>, steps: seq<Step>, n: nat)
    requires n <= |steps| < |states| && Reaches(states, steps, n)
    ensures states[n].cell.Pending? <==> exists t :: t in states[n].pcs && Initialising(states[n].pcs[t])
    ensures forall t, u | t in states[n].pcs && u in states[n].pcs && Initialising(states[n].pcs[t]) ::
              Initialising(states[n].pcs[u]) ==> t == u
  {
    var x := RunKeepsInv(states, steps, n);
    var s := states[n];
    forall t | t in s.pcs ensures Initialising(s.pcs[t]) <==> x.init == Some(t) {
      assert ThreadOk(s.pcs[t], t, x);
    }
    if s.cell.Pending? {
      var t := x.init.value;
      assert t in s.pcs && Initialising(s.pcs[t]);
    }
  }

  /** A publish only ever replaces pending: it never drops a value another thread stored. */
  lemma PublishReplacesPending(states: seq<State>, steps: seq<Step>, n: nat, t: Tid)
    requires n < |steps| < |states| && Reaches(states, steps, n + 1) && steps[n].Run? && steps[n].t == t
    requires t in states[n].pcs && states[n].pcs[t].PublishCas?
    ensures states[n].cell == Pending
    ensures states[n + 1].cell == if steps[n].fails then Pending else Ready(states[n].pcs[t].a)
  {
    var x := RunKeepsInv(states, steps, n);
    assert ThreadOk(states[n].pcs[t], t, x);
  }

  /** What a thread deletes is live, out of the cell and no other thread's: no value is
      deleted twice, whatever addresses the allocator hands out again. */
  lemma DeletesItsOwn(states: seq<State>, steps: seq<Step>, n: nat, t: Tid)
    requires n <= |steps| < |states| && Reaches(states, steps, n)
    requires t in states[n].pcs && states[n].pcs[t].Destroy?
    ensures states[n].pcs[t].a in states[n].heap && states[n].cell != Ready(states[n].pcs[t].a)
    ensures forall u :: u in states[n].pcs && Holds(states[n].pcs[u]) == Some(states[n].pcs[t].a) ==> u == t
  {
    var x := RunKeepsInv(states, steps, n);
    assert ThreadOk(states[n].pcs[t], t, x);
    forall u | u in states[n].pcs && Holds(states[n].pcs[u]) == Some(states[n].pcs[t].a) ensures u == t {
      assert ThreadOk(states[n].pcs[u], u, x);
    }
  }

  /** Nothing leaks: between operations the live values are exactly what the cell holds. */
  lemma QuietCellOwnsAll(states: seq<State>, steps: seq<Step>, n: nat)
    requires n <= |steps| < |states| && Reaches(states, steps, n)
    requires forall t :: t in states[n].pcs ==> Holds(states[n].pcs[t]) == None
    ensures states[n].heap.Keys == if states[n].cell.Ready? then {states[n].cell.a} else {}
  {
    var x := RunKeepsInv(states, steps, n);
    var s := states[n];
    forall a ensures a in s.heap.Keys <==> s.cell == Ready(a) {
      if a in s.heap { assert OwnerOk(s, a, x.owner[a]); }
    }
    var held := if s.cell.Ready? then {s.cell.a} else {};
    assert forall a :: a in s.heap.Keys <==> a in held;
  }
}
