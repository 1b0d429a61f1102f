/** What the operations of lazy_atomic do: each one among any other threads, whatever they
    do, and each one alone. */
module LazyEffects {
  import opened Options
  import opened LazyAtomic

  /** Thread t begins op with step i and is inside it after every step up to the n-th. */
  ghost predicate Inside(states: seq<State>, steps: seq<Step>, i: nat, n: nat, t: Tid, op: Op)
    requires n <= |steps| < |states|
  {
    && i < n && steps[i] == Begin(t, op)
    && (forall m :: i < m < n ==> t in states[m].pcs && !states[m].pcs[t].Idle?)
    && t in states[n].pcs
  }

  // ------------------------------------------------------------ among other threads

  /** Step c of thread t leaves no value in the cell. */
  ghost predicate EmptiesAt(states: seq<State>, steps: seq<Step>, c: nat, t: Tid)
    requires c < |steps| < |states|
  {
    steps[c].t == t && !states[c + 1].cell.Ready?
  }

  /** Step r of thread t puts pending in the place of an empty word. */
  ghost predicate ReservesAt(states: seq<State>, steps: seq<Step>, r: nat, t: Tid)
    requires r < |steps| < |states|
  {
    steps[r].t == t && states[r].cell.Empty? && states[r + 1].cell.Pending?
  }

  ghost predicate StaysPending(states: seq<State>, r: nat, m: nat)
    requires m < |states|
  {
    forall l :: r < l <= m ==> states[l].cell.Pending?
  }

  /** Step p of thread t replaces pending by a live value, for an assignment its argument. */
  ghost predicate PublishesAt(states: seq<State>, steps: seq<Step>, p: nat, t: Tid, op: Op)
    requires p < |steps| < |states|
  {
    var s' := states[p + 1];
    && steps[p].t == t && states[p].cell.Pending?
    && s'.cell.Ready? && s'.cell.a in s'.heap && (op.Assign? ==> s'.heap[s'.cell.a] == op.v)
  }

  /** Step e of thread t finds the cell taken. */
  ghost predicate FindsTaken(states: seq<State>, steps: seq<Step>, e: nat, t: Tid)
    requires e < |steps| < |states|
  {
    steps[e].t == t && !states[e].cell.Empty?
  }

  /** The clear of an assignment or a clear() has taken effect; ptr() has none. */
  ghost predicate HasEmptied(states: seq<State>, steps: seq<Step>, i: nat, m: nat, t: Tid, op: Op)
    requires m <= |steps| < |states|
  {
    op.Ptr? || exists c :: i < c < m && EmptiesAt(states, steps, c, t)
  }

  ghost predicate HasReserved(states: seq<State>, steps: seq<Step>, i: nat, m: nat, t: Tid, op: Op)
    requires m <= |steps| < |states|
  {
    exists r :: i < r < m && HasEmptied(states, steps, i, r, t, op) &&
      ReservesAt(states, steps, r, t) && StaysPending(states, r, m)
  }

  /** It has published what it made, in the place of the pending word it had put there and
      that had stayed there. */
  ghost predicate HasPublished(states: seq<State>, steps: seq<Step>, i: nat, m: nat, t: Tid, op: Op)
    requires m <= |steps| < |states|
  {
    exists p :: i < p < m && HasReserved(states, steps, i, p, t, op) && PublishesAt(states, steps, p, t, op)
  }

  ghost predicate HasFoundTaken(states: seq<State>, steps: seq<Step>, i: nat, m: nat, t: Tid, op: Op)
    requires m <= |steps| < |states|
  {
    exists e :: i < e < m && HasEmptied(states, steps, i, e, t, op) && FindsTaken(states, steps, e, t)
  }

  ghost predicate HasFilled(states: seq<State>, steps: seq<Step>, i: nat, m: nat, t: Tid, op: Op)
    requires m <= |steps| < |states|
  {
    HasPublished(states, steps, i, m, t, op) || HasFoundTaken(states, steps, i, m, t, op)
  }

  ghost predicate SoFar(states: seq<State>, steps: seq<Step>, i: nat, m: nat, t: Tid, op: Op)
    requires m <= |steps| < |states| && t in states[m].pcs
  {
    match states[m].pcs[t]
    case ClearLoad(o) => o == op && !op.Ptr?
    case ClearCas(o, _) => o == op && !op.Ptr?
    case Destroy(o, _) => o == op && !op.Ptr? && HasEmptied(states, steps, i, m, t, op)
    case ReserveLoad(o) => o == op && !op.Clear? && HasEmptied(states, steps, i, m, t, op)
    case ReserveCas(o) => o == op && !op.Clear? && HasEmptied(states, steps, i, m, t, op)
    case Make(o) => o == op && !op.Clear? && HasReserved(states, steps, i, m, t, op)
    case PublishLoad(o, _) => o == op && !op.Clear? && HasReserved(states, steps, i, m, t, op)
    case PublishCas(o, _, _) => o == op && !op.Clear? && HasReserved(states, steps, i, m, t, op)
    case Spin => op.Ptr? && HasFilled(states, steps, i, m, t, op)
    case Idle => if op.Clear? then HasEmptied(states, steps, i, m, t, op) else HasFilled(states, steps, i, m, t, op)
  }

  lemma EmptiedLonger(states: seq<State>, steps: seq<Step>, i: nat, m: nat, t: Tid, op: Op)
    requires m < |steps| < |states| && HasEmptied(states, steps, i, m, t, op)
    ensures HasEmptied(states, steps, i, m + 1, t, op)
  {
    if !op.Ptr? {
      var c :| i < c < m && EmptiesAt(states, steps, c, t);
      assert i < c < m + 1;
    }
  }

  lemma ReservedLonger(states: seq<State>, steps: seq<Step>, i: nat, m: nat, t: Tid, op: Op)
    requires m < |steps| < |states| && HasReserved(states, steps, i, m, t, op) && states[m + 1].cell.Pending?
    ensures HasReserved(states, steps, i, m + 1, t, op)
  {
    var r :| i < r < m && HasEmptied(states, steps, i, r, t, op) &&
      ReservesAt(states, steps, r, t) && StaysPending(states, r, m);
    assert StaysPending(states, r, m + 1);
  }

  lemma FilledLonger(states: seq<State>, steps: seq<Step>, i: nat, m: nat, t: Tid, op: Op)
    requires m < |steps| < |states| && HasFilled(states, steps, i, m, t, op)
    ensures HasFilled(states, steps, i, m + 1, t, op)
  {
    if HasPublished(states, steps, i, m, t, op) {
      var p :| i < p < m && HasReserved(states, steps, i, p, t, op) && PublishesAt(states, steps, p, t, op);
      assert i < p < m + 1;
    } else {
      var e :| i < e < m && HasEmptied(states, steps, i, e, t, op) && FindsTaken(states, steps, e, t);
      assert i < e < m + 1;
    }
  }

  /** Whoever is between reserve and publish finds the cell pending. */
  lemma InitialiserPending(states: seq<State>, steps: seq<Step>, n: nat, t: Tid)
    requires n <= |steps| < |states| && Reaches(states, steps, n) && t in states[n].pcs
    ensures Initialising(states[n].pcs[t]) ==> states[n].cell.Pending?
  {
    PendingHasOneInitialiser(states, steps, n);
  }

  /** A step of another thread. */
  lemma OthersStep(states: seq<State>, steps: seq<Step>, i: nat, m: nat, t: Tid, op: Op)
    requires m < |steps| < |states| && Reaches(states, steps, m + 1) && t in states[m].pcs
    requires SoFar(states, steps, i, m, t, op) && steps[m].t != t && !states[m].pcs[t].Idle?
    ensures t in states[m + 1].pcs && SoFar(states, steps, i, m + 1, t, op)
  {
    OthersLeave(states[m], steps[m], states[m + 1], t);
    InitialiserPending(states, steps, m + 1, t);
    match states[m].pcs[t]
    case ClearLoad(_) =>
    case ClearCas(_, _) =>
    case Destroy(_, _) => EmptiedLonger(states, steps, i, m, t, op);
    case ReserveLoad(_) => EmptiedLonger(states, steps, i, m, t, op);
    case ReserveCas(_) => EmptiedLonger(states, steps, i, m, t, op);
    case Make(_) => ReservedLonger(states, steps, i, m, t, op);
    case PublishLoad(_, _) => ReservedLonger(states, steps, i, m, t, op);
    case PublishCas(_, _, _) => ReservedLonger(states, steps, i, m, t, op);
    case Spin => FilledLonger(states, steps, i, m, t, op);
  }

  lemma OthersLeave(s: State, step: Step, s': State, t: Tid)
    requires Next(s, step, s') && t in s.pcs && step.t != t
    ensures t in s'.pcs && s'.pcs[t] == s.pcs[t]
  {
  }

  /** A step of the thread in its clear loop. */
  lemma ClearingStep(states: seq<State>, steps: seq<Step>, i: nat, m: nat, t: Tid, op: Op)
    requires i < m < |steps| < |states| && Next(states[m], steps[m], states[m + 1]) && t in states[m].pcs
    requires SoFar(states, steps, i, m, t, op) && steps[m].t == t
    requires states[m].pcs[t].ClearLoad? || states[m].pcs[t].ClearCas? || states[m].pcs[t].Destroy?
    ensures t in states[m + 1].pcs && SoFar(states, steps, i, m + 1, t, op)
  {
    if states[m].pcs[t].Destroy? {
      EmptiedLonger(states, steps, i, m, t, op);
    } else if !states[m + 1].cell.Ready? {
      assert EmptiesAt(states, steps, m, t);
    }
  }

  /** In its reserve loop. */
  lemma ReservingStep(states: seq<State>, steps: seq<Step>, i: nat, m: nat, t: Tid, op: Op)
    requires i < m < |steps| < |states| && Next(states[m], steps[m], states[m + 1]) && t in states[m].pcs
    requires SoFar(states, steps, i, m, t, op) && steps[m].t == t
    requires states[m].pcs[t].ReserveLoad? || states[m].pcs[t].ReserveCas?
    ensures t in states[m + 1].pcs && SoFar(states, steps, i, m + 1, t, op)
  {
    EmptiedLonger(states, steps, i, m, t, op);
    if states[m].pcs[t].ReserveLoad? && !states[m].cell.Empty? {
      assert FindsTaken(states, steps, m, t);
    } else if states[m].cell.Empty? && states[m + 1].cell.Pending? {
      assert ReservesAt(states, steps, m, t) && StaysPending(states, m, m + 1);
    }
  }

  /** Between reserve and publish. */
  lemma PublishingStep(states: seq<State>, steps: seq<Step>, i: nat, m: nat, t: Tid, op: Op)
    requires i < m < |steps| < |states| && Reaches(states, steps, m + 1) && t in states[m].pcs
    requires SoFar(states, steps, i, m, t, op) && steps[m].t == t && Initialising(states[m].pcs[t])
    ensures t in states[m + 1].pcs && SoFar(states, steps, i, m + 1, t, op)
  {
    InitialiserPending(states, steps, m, t);
    var x := RunKeepsInv(states, steps, m);
    assert ThreadOk(states[m].pcs[t], t, x) && HoldsArgument(states[m].pcs[t], states[m].heap);
    if states[m + 1].cell.Pending? {
      ReservedLonger(states, steps, i, m, t, op);
    } else {
      assert PublishesAt(states, steps, m, t, op);
    }
  }

  lemma OwnStep(states: seq<State>, steps: seq<Step>, i: nat, m: nat, t: Tid, op: Op)
    requires i < m < |steps| < |states| && Reaches(states, steps, m + 1) && t in states[m].pcs
    requires SoFar(states, steps, i, m, t, op) && steps[m].t == t && !states[m].pcs[t].Idle?
    ensures t in states[m + 1].pcs && SoFar(states, steps, i, m + 1, t, op)
  {
    assert Next(states[m], steps[m], states[m + 1]);
    match states[m].pcs[t]
    case ClearLoad(_) => ClearingStep(states, steps, i, m, t, op);
    case ClearCas(_, _) => ClearingStep(states, steps, i, m, t, op);
    case Destroy(_, _) => ClearingStep(states, steps, i, m, t, op);
    case ReserveLoad(_) => ReservingStep(states, steps, i, m, t, op);
    case ReserveCas(_) => ReservingStep(states, steps, i, m, t, op);
    case Spin => FilledLonger(states, steps, i, m, t, op);
    case _ => PublishingStep(states, steps, i, m, t, op);
  }

  lemma {:induction false} InsideSoFar(states: seq<State>, steps: seq<Step>, i: nat, n: nat, t: Tid, op: Op, m: nat)
    requires i < m <= n <= |steps| < |states| && Reaches(states, steps, n) && Inside(states, steps, i, n, t, op)
    ensures t in states[m].pcs && SoFar(states, steps, i, m, t, op)
    decreases m
  {
    if m == i + 1 {
      assert Next(states[i], steps[i], states[m]);
    } else {
      InsideSoFar(states, steps, i, n, t, op, m - 1);
      if steps[m - 1].t == t {
        OwnStep(states, steps, i, m - 1, t, op);
      } else {
        OthersStep(states, steps, i, m - 1, t, op);
      }
    }
  }

  /** An assignment that has returned has emptied the cell, and then either published its
      argument, in the place of the pending word it had put into the empty cell and that
      stayed there all the time, or found the cell taken. */
  lemma AssignTakesEffect(states: seq<State>, steps: seq<Step>, i: nat, n: nat, t: Tid, v: Value)
    requires n <= |steps| < |states| && Reaches(states, steps, n) && Inside(states, steps, i, n, t, Assign(v))
    requires states[n].pcs[t].Idle?
    ensures
      || (exists c, r, p :: i < c < r < p < n && EmptiesAt(states, steps, c, t) && ReservesAt(states, steps, r, t) &&
            StaysPending(states, r, p) && PublishesAt(states, steps, p, t, Assign(v)))
      || (exists c, e :: i < c < e < n && EmptiesAt(states, steps, c, t) && FindsTaken(states, steps, e, t))
  {
    InsideSoFar(states, steps, i, n, t, Assign(v), n);
  }

  /** A clear that has returned has left no value in the cell at one of its steps. */
  lemma ClearTakesEffect(states: seq<State>, steps: seq<Step>, i: nat, n: nat, t: Tid)
    requires n <= |steps| < |states| && Reaches(states, steps, n) && Inside(states, steps, i, n, t, Clear)
    requires states[n].pcs[t].Idle?
    ensures exists c :: i < c < n && EmptiesAt(states, steps, c, t)
  {
    InsideSoFar(states, steps, i, n, t, Clear, n);
  }

  lemma Enters(s: State, step: Step, s': State)
    requires Next(s, step, s') && step.Begin?
    ensures step.t in s'.pcs && !s'.pcs[step.t].Idle?
  {
  }

  predicate InPtr(pc: PC) {
    pc.Spin? || (pc.ReserveLoad? && pc.op.Ptr?) || (pc.ReserveCas? && pc.op.Ptr?) || (Initialising(pc) && pc.op.Ptr?)
  }

  lemma LastOfPtr(s: State, step: Step, s': State, t: Tid)
    requires Next(s, step, s') && t in s.pcs && !s.pcs[t].Idle? && t in s'.pcs && s'.pcs[t].Idle?
    requires InPtr(s.pcs[t])
    ensures step.t == t && s'.returned == s.returned + [s.cell] && !s.cell.Pending?
  {
  }

  /** A ptr() that has returned has published what the factory made, or found the cell
      taken; and it has returned what the cell held at its last step, which was not pending. */
  lemma PtrTakesEffect(states: seq<State>, steps: seq<Step>, i: nat, n: nat, t: Tid)
    requires n <= |steps| < |states| && Reaches(states, steps, n) && Inside(states, steps, i, n, t, Ptr)
    requires states[n].pcs[t].Idle?
    ensures
      || (exists r, p :: i < r < p < n && ReservesAt(states, steps, r, t) && StaysPending(states, r, p) &&
            PublishesAt(states, steps, p, t, Ptr))
      || (exists e :: i < e < n && FindsTaken(states, steps, e, t))
    ensures steps[n - 1].t == t && !states[n - 1].cell.Pending?
    ensures states[n].returned == states[n - 1].returned + [states[n - 1].cell]
  {
    InsideSoFar(states, steps, i, n, t, Ptr, n);
    Enters(states[i], steps[i], states[i + 1]);
    InsideSoFar(states, steps, i, n, t, Ptr, n - 1);
    assert Next(states[n - 1], steps[n - 1], states[n]);
    LastOfPtr(states[n - 1], steps[n - 1], states[n], t);
  }
}
