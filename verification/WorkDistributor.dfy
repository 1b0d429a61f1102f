/** The work distributor: units from a list are handed to idle workers in turn, and every
    worker is executed in turn until nothing is left. */
module WorkDistributor {
  import opened Options
  import opened Seqs
  import opened WorkUnits
  import opened WorkOrder
  import opened WorkShifts
  import T = WorkTurns

  /** work_list. */
  class WorkList {
    var work: seq<Work>

    constructor (work: seq<Work>)
      ensures this.work == work
    {
      this.work := work;
    }

    method PopFront() returns (u: Option<Work>)
      modifies this
      ensures old(work) == [] ==> u == None && work == []
      ensures old(work) != [] ==> u == Some(old(work)[0]) && work == old(work)[1..]
    {
      if work == [] {
        return None;
      }
      u := Some(work[0]);
      work := work[1..];
    }
  }

  /** inline_worker: at most one unit, executed in place. */
  class InlineWorker {
    var curr: Option<Work>

    constructor ()
      ensures curr == None
    {
      curr := None;
    }

    /** Takes the unit only when idle; taking no unit at all counts as taking it. */
    method Add(u: Option<Work>) returns (added: bool)
      modifies this
      ensures added == old(curr).None?
      ensures curr == if added then u else old(curr)
    {
      if curr.Some? {
        return false;
      }
      curr := u;
      added := true;
    }

    method Execute() returns (status: Status, calls: seq<Attempt>)
      modifies this
      ensures old(curr).None? ==> status == Status(false, true, true) && calls == [] && curr == None
      ensures old(curr).Some? ==>
                var o := WorkUnits.Execute(old(curr).value);
                status == o.status && calls == o.calls &&
                curr == if o.status.complete then None else Some(o.rest)
    {
      if curr.None? {
        return Status(false, true, true), [];
      }
      var o := WorkUnits.Execute(curr.value);
      status, calls := o.status, o.calls;
      curr := if o.status.complete then None else Some(o.rest);
    }
  }

  // ------------------------------------------------------- what is still to do

  function Held(o: Option<Work>): seq<Work> {
    if o.None? then [] else [o.value]
  }

  /** The units the workers hold, in the order of the workers. */
  function AllHeld(h: seq<Option<Work>>): seq<Work> {
    if h == [] then [] else Held(h[0]) + AllHeld(h[1..])
  }

  function Busy(h: seq<Option<Work>>): (n: nat)
    ensures n == |AllHeld(h)|
  {
    if h == [] then 0 else (if h[0].Some? then 1 else 0) + Busy(h[1..])
  }

  /** The next index from i on whose worker holds a unit, or the number of workers. */
  function NextBusy(h: seq<Option<Work>>, i: nat): (j: nat)
    requires i <= |h|
    ensures i <= j <= |h| && (j < |h| ==> h[j].Some?) && forall k :: i <= k < j ==> h[k].None?
    decreases |h| - i
  {
    if i == |h| || h[i].Some? then i else NextBusy(h, i + 1)
  }

  /** How many turns until a worker with a unit is reached, going round. */
  function Distance(h: seq<Option<Work>>, i: nat): nat
    requires i <= |h|
  {
    if NextBusy(h, i) < |h| then NextBusy(h, i) - i else |h| - i + NextBusy(h, 0)
  }

  lemma {:induction false} HeldConcat(a: seq<Option<Work>>, b: seq<Option<Work>>)
    ensures AllHeld(a + b) == AllHeld(a) + AllHeld(b)
    ensures Busy(a + b) == Busy(a) + Busy(b)
  {
    ConcatTail(a, b);
    if a != [] {
      HeldConcat(a[1..], b);
    }
  }

  lemma HeldSplit(h: seq<Option<Work>>, i: nat)
    requires i < |h|
    ensures AllHeld(h) == AllHeld(h[..i]) + Held(h[i]) + AllHeld(h[i + 1..])
    ensures Busy(h) == Busy(h[..i]) + (if h[i].Some? then 1 else 0) + Busy(h[i + 1..])
  {
    TakeDrop(h, i);
    HeldConcat(h[..i], h[i..]);
    Associate(AllHeld(h[..i]), Held(h[i]), AllHeld(h[i + 1..]));
  }

  /** One worker's unit changes. */
  lemma HeldUpdate(h: seq<Option<Work>>, i: nat, o: Option<Work>)
    requires i < |h|
    ensures RoundsOf(AllHeld(h[i := o])) == RoundsOf(AllHeld(h)) - RoundsOf(Held(h[i])) + RoundsOf(Held(o))
    ensures OwedBy(AllHeld(h[i := o])) + OwedBy(Held(h[i])) == OwedBy(AllHeld(h)) + OwedBy(Held(o))
  {
    var g := h[i := o];
    UpdateAround(h, i, o);
    HeldSplit(h, i);
    HeldSplit(g, i);
    var a, b := AllHeld(h[..i]), AllHeld(h[i + 1..]);
    RoundsConcat(a + Held(h[i]), b);
    RoundsConcat(a, Held(h[i]));
    RoundsConcat(a + Held(o), b);
    RoundsConcat(a, Held(o));
  }

  lemma BusyUpdate(h: seq<Option<Work>>, i: nat, o: Option<Work>)
    requires i < |h|
    ensures Busy(h[i := o]) == Busy(h) - (if h[i].Some? then 1 else 0) + (if o.Some? then 1 else 0)
  {
    var g := h[i := o];
    UpdateAround(h, i, o);
    HeldSplit(h, i);
    HeldSplit(g, i);
  }

  /** Nobody holds anything when no worker is busy, and the other way round. */
  lemma {:induction false} NoneBusy(h: seq<Option<Work>>)
    ensures Busy(h) == 0 <==> forall i :: 0 <= i < |h| ==> h[i].None?
  {
    if h != [] {
      NoneBusy(h[1..]);
      assert forall i :: 0 < i < |h| ==> h[i] == h[1..][i - 1];
    }
  }

  /** Passing an idle worker brings the next busy one nearer. */
  lemma DistanceShrinks(h: seq<Option<Work>>, i: nat)
    requires i < |h| && h[i].None? && Busy(h) > 0
    ensures Distance(h, if i + 1 == |h| then 0 else i + 1) < Distance(h, i)
  {
    NoneBusy(h);
    assert NextBusy(h, 0) < |h|;
    assert NextBusy(h, i) == NextBusy(h, i + 1);
  }

  /** What a worker is left with after executing what it holds. */
  function Left(now: Option<Work>): Option<Work> {
    if now.None? || WorkUnits.Execute(now.value).status.complete then None
    else Some(WorkUnits.Execute(now.value).rest)
  }

  function CallsOf(now: Option<Work>): seq<Attempt> {
    if now.None? then [] else WorkUnits.Execute(now.value).calls
  }

  /** All rounds still needed: by the unit in hand, the list and the workers. */
  function ToDo(unit: Option<Work>, work: seq<Work>, h: seq<Option<Work>>): nat {
    RoundsOf(Held(unit)) + RoundsOf(work) + RoundsOf(AllHeld(h))
  }

  function AllOwed(unit: Option<Work>, work: seq<Work>, h: seq<Option<Work>>): multiset<Attempt> {
    OwedBy(Held(unit)) + OwedBy(work) + OwedBy(AllHeld(h))
  }

  /** A worker's execution uses up one round, if it holds a unit at all. */
  lemma LeftProgress(now: Option<Work>)
    ensures RoundsOf(Held(Left(now))) == RoundsOf(Held(now)) - if now.Some? then 1 else 0
    ensures OwedBy(Held(now)) == multiset(CallsOf(now)) + OwedBy(Held(Left(now)))
  {
    if now.Some? {
      ExecuteProgress(now.value);
      RoundsOne(now.value);
      RoundsOne(WorkUnits.Execute(now.value).rest);
    }
  }

  /** The first pair of the list moves into the hand. */
  lemma PopKeeps(work: seq<Work>)
    requires work != []
    ensures RoundsOf(work) == RoundsOf(Held(Some(work[0]))) + RoundsOf(work[1..])
    ensures OwedBy(work) == OwedBy(Held(Some(work[0]))) + OwedBy(work[1..])
  {
    RoundsOne(work[0]);
  }

  lemma Cancel(x: multiset<Attempt>, a: multiset<Attempt>, y: multiset<Attempt>, b: multiset<Attempt>,
               c: multiset<Attempt>)
    requires x + a == y + b && a == c + b
    ensures y == c + x
  {
    forall e ensures y[e] == (c + x)[e] {
      assert (x + a)[e] == (y + b)[e] && a[e] == (c + b)[e];
    }
  }

  /** A worker executes what it holds: a round and its calls go from what is to do. */
  lemma HolderTurn(h: seq<Option<Work>>, i: nat)
    requires i < |h|
    ensures OwedBy(AllHeld(h)) == multiset(CallsOf(h[i])) + OwedBy(AllHeld(h[i := Left(h[i])]))
    ensures RoundsOf(AllHeld(h[i := Left(h[i])])) == RoundsOf(AllHeld(h)) - if h[i].Some? then 1 else 0
  {
    HeldUpdate(h, i, Left(h[i]));
    LeftProgress(h[i]);
    Cancel(OwedBy(AllHeld(h[i := Left(h[i])])), OwedBy(Held(h[i])), OwedBy(AllHeld(h)), OwedBy(Held(Left(h[i]))),
           multiset(CallsOf(h[i])));
  }

  /** pop_front. */
  ghost predicate Popped(work: seq<Work>, unit: Option<Work>, rest: seq<Work>) {
    if work == [] then unit == None && rest == [] else unit == Some(work[0]) && rest == work[1..]
  }

  lemma PoppedKeeps(work: seq<Work>, unit: Option<Work>, rest: seq<Work>)
    requires Popped(work, unit, rest)
    ensures RoundsOf(Held(unit)) + RoundsOf(rest) == RoundsOf(work)
    ensures OwedBy(Held(unit)) + OwedBy(rest) == OwedBy(work)
  {
    if work != [] { PopKeeps(work); }
  }

  lemma HandTerms<T>(x: multiset<T>, y: multiset<T>, unit: multiset<T>, work: multiset<T>,
                     next: multiset<T>, rest: multiset<T>, none: multiset<T>)
    requires x + none == y + unit && next + rest == work && none == multiset{}
    ensures next + rest + x == unit + work + y
  {
    forall e ensures (next + rest + x)[e] == (unit + work + y)[e] {
      assert (x + none)[e] == (y + unit)[e] && (next + rest)[e] == work[e];
    }
  }

  /** An idle worker takes the unit in hand, and the next one is popped from the list. */
  lemma HandOver(h: seq<Option<Work>>, i: nat, unit: Option<Work>, work: seq<Work>, next: Option<Work>, rest: seq<Work>)
    requires i < |h| && h[i].None? && Popped(work, next, rest)
    ensures AllOwed(next, rest, h[i := unit]) == AllOwed(unit, work, h)
    ensures ToDo(next, rest, h[i := unit]) == ToDo(unit, work, h)
  {
    HeldUpdate(h, i, unit);
    PoppedKeeps(work, next, rest);
    HandTerms(OwedBy(AllHeld(h[i := unit])), OwedBy(AllHeld(h)), OwedBy(Held(unit)), OwedBy(work),
              OwedBy(Held(next)), OwedBy(rest), OwedBy(Held(h[i])));
  }

  /** One pass of the loop, as it looks from outside: the worker at i is offered the
      unit in hand, then executed. */
  ghost predicate Passed(h: seq<Option<Work>>, i: nat, unit: Option<Work>, work: seq<Work>,
                         next: Option<Work>, rest: seq<Work>, calls: seq<Attempt>, h': seq<Option<Work>>)
    requires i < |h|
  {
    var now := if h[i].None? then unit else h[i];
    && (if h[i].None? then Popped(work, next, rest) else next == unit && rest == work)
    && calls == CallsOf(now) && h' == h[i := Left(now)]
  }

  lemma HolderKeeps(h: seq<Option<Work>>, i: nat, unit: Option<Work>, work: seq<Work>, h': seq<Option<Work>>)
    requires i < |h| && h' == h[i := Left(h[i])]
    ensures AllOwed(unit, work, h) == multiset(CallsOf(h[i])) + AllOwed(unit, work, h')
    ensures ToDo(unit, work, h') == ToDo(unit, work, h) - if h[i].Some? then 1 else 0
  {
    HolderTurn(h, i);
    TurnTerms(OwedBy(Held(unit)) + OwedBy(work), OwedBy(AllHeld(h)), multiset(CallsOf(h[i])), OwedBy(AllHeld(h')));
  }

  lemma TurnTerms<T>(u: multiset<T>, x: multiset<T>, c: multiset<T>, y: multiset<T>)
    requires x == c + y
    ensures u + x == c + (u + y)
  {
  }

  /** Nothing owed is lost, and a round is used up unless there was neither a unit in
      hand nor one in the worker. */
  lemma PassKeeps(h: seq<Option<Work>>, i: nat, unit: Option<Work>, work: seq<Work>,
                  next: Option<Work>, rest: seq<Work>, calls: seq<Attempt>, h': seq<Option<Work>>)
    requires i < |h| && Passed(h, i, unit, work, next, rest, calls, h')
    ensures AllOwed(unit, work, h) == multiset(calls) + AllOwed(next, rest, h')
    ensures ToDo(next, rest, h') == ToDo(unit, work, h) - if h[i].Some? || unit.Some? then 1 else 0
  {
    if h[i].None? {
      var mid := h[i := unit];
      HandOver(h, i, unit, work, next, rest);
      UpdateTwice(h, i, unit, Left(unit));
      HolderKeeps(mid, i, next, rest, h');
    } else {
      HolderKeeps(h, i, unit, work, h');
    }
  }

  /** The pending units around worker i. */
  lemma PendingAround(unit: Option<Work>, work: seq<Work>, h: seq<Option<Work>>, i: nat, a: seq<Work>, b: seq<Work>)
    requires i < |h| && a == AllHeld(h[..i]) && b == AllHeld(h[i + 1..])
    ensures Pending(unit, work, h) == (Held(unit) + work + a) + (Held(h[i]) + b)
    ensures Pending(unit, work, h) == Held(unit) + ((work + a) + (Held(h[i]) + b))
  {
    HeldSplit(h, i);
    Reassociate(Held(unit), work, a, Held(h[i]), b);
  }

  lemma Reassociate<T>(u: seq<T>, w: seq<T>, a: seq<T>, x: seq<T>, b: seq<T>)
    ensures u + w + (a + x + b) == (u + w + a) + (x + b) == u + ((w + a) + (x + b))
  {
  }

  /** A pass keeps the order of the calls of any lambdas that one unit at most holds. */
  lemma PassInOrder(all: seq<Attempt>, ids: set<int>, made: seq<Attempt>,
                    h: seq<Option<Work>>, i: nat, unit: Option<Work>, work: seq<Work>,
                    next: Option<Work>, rest: seq<Work>, calls: seq<Attempt>, h': seq<Option<Work>>)
    requires i < |h| && Passed(h, i, unit, work, next, rest, calls, h')
    requires InOrder(all, ids, made, Pending(unit, work, h))
    ensures InOrder(all, ids, made + calls, Pending(next, rest, h'))
  {
    var a, b := AllHeld(h[..i]), AllHeld(h[i + 1..]);
    UpdateAround(h, i, h'[i]);
    PendingAround(unit, work, h, i, a, b);
    PendingAround(next, rest, h', i, a, b);
    if h[i].Some? {
      CallUnit(all, ids, made, Held(unit) + work + a, h[i].value, b);
    } else if unit.Some? {
      assert Held(h[i]) + b == b && Held(next) + rest == work;
      MoveUnit(all, ids, made, [unit.value], work + a, b);
      CallUnit(all, ids, made, work + a, unit.value, b);
    } else {
      assert Held(next) + rest == work && made + calls == made;
      assert Pending(next, rest, h') == Pending(unit, work, h);
    }
  }

  /** The loop's measure: rounds to do, then turns to the next busy worker. */
  function Turns(unit: Option<Work>, h: seq<Option<Work>>, i: nat): nat
    requires i <= |h|
  {
    if unit.Some? then 0 else Distance(h, i)
  }

  function After(i: nat, n: nat): nat {
    if i + 1 == n then 0 else i + 1
  }

  ghost predicate Decreases(a: nat, b: nat, a': nat, b': nat) {
    a' < a || (a' == a && b' < b)
  }

  lemma PassDecreases(h: seq<Option<Work>>, i: nat, unit: Option<Work>, work: seq<Work>,
                      next: Option<Work>, rest: seq<Work>, calls: seq<Attempt>, h': seq<Option<Work>>)
    requires i < |h| && Passed(h, i, unit, work, next, rest, calls, h')
    requires unit.Some? || (work == [] && Busy(h) > 0)
    ensures Decreases(ToDo(unit, work, h), Turns(unit, h, i), ToDo(next, rest, h'), Turns(next, h', After(i, |h|)))
  {
    PassKeeps(h, i, unit, work, next, rest, calls, h');
    if unit.None? && h[i].None? {
      assert h' == h;
      DistanceShrinks(h, i);
    }
  }

  /** The calls made so far and those still owed make up the total. */
  ghost predicate Accounted(total: multiset<Attempt>, calls: seq<Attempt>,
                            unit: Option<Work>, work: seq<Work>, h: seq<Option<Work>>) {
    multiset(calls) + AllOwed(unit, work, h) == total
  }

  lemma PassAccounts(total: multiset<Attempt>, made: seq<Attempt>,
                     h: seq<Option<Work>>, i: nat, unit: Option<Work>, work: seq<Work>,
                     next: Option<Work>, rest: seq<Work>, calls: seq<Attempt>, h': seq<Option<Work>>)
    requires i < |h| && Passed(h, i, unit, work, next, rest, calls, h')
    requires Accounted(total, made, unit, work, h)
    ensures Accounted(total, made + calls, next, rest, h')
  {
    PassKeeps(h, i, unit, work, next, rest, calls, h');
  }

  lemma StartAccounts(work: seq<Work>, unit: Option<Work>, rest: seq<Work>, h: seq<Option<Work>>)
    requires Popped(work, unit, rest) && forall i :: 0 <= i < |h| ==> h[i].None?
    ensures Accounted(OwedBy(work), [], unit, rest, h)
  {
    PoppedKeeps(work, unit, rest);
    AllIdle(h);
  }

  lemma EndAccounts(total: multiset<Attempt>, calls: seq<Attempt>, h: seq<Option<Work>>)
    requires Busy(h) == 0 && Accounted(total, calls, None, [], h)
    ensures multiset(calls) == total && forall i :: 0 <= i < |h| ==> h[i].None?
  {
    NoneBusy(h);
    AllIdle(h);
  }

  /** The units that are not done: in hand, in the list, and with the workers. */
  function Pending(unit: Option<Work>, work: seq<Work>, h: seq<Option<Work>>): seq<Work> {
    Held(unit) + work + AllHeld(h)
  }

  /** The calls made so far and those still due from some lambdas make up all of them, in
      order, one unit at most holding these lambdas. */
  ghost predicate InOrder(all: seq<Attempt>, ids: set<int>, calls: seq<Attempt>, pending: seq<Work>) {
    Holders(pending, ids) <= 1 && Mine(calls, ids) + Due(pending, ids) == all
  }

  /** Moving a unit elsewhere among the pending ones. */
  lemma MoveUnit(all: seq<Attempt>, ids: set<int>, calls: seq<Attempt>, u: seq<Work>, a: seq<Work>, b: seq<Work>)
    requires InOrder(all, ids, calls, u + (a + b))
    ensures InOrder(all, ids, calls, a + (u + b))
  {
    DueConcat(u, a + b, ids);
    DueConcat(a, b, ids);
    DueConcat(a, u + b, ids);
    DueConcat(u, b, ids);
    DueSwap(u, a, ids);
    MoveTerms(Due(u, ids), Due(a, ids), Due(b, ids));
  }

  lemma MoveTerms<T>(u: seq<T>, a: seq<T>, b: seq<T>)
    requires u + a == a + u
    ensures u + (a + b) == a + (u + b)
  {
    assert u + (a + b) == (u + a) + b;
    assert a + (u + b) == (a + u) + b;
  }

  /** Executing a pending unit: its calls come next. */
  lemma CallUnit(all: seq<Attempt>, ids: set<int>, calls: seq<Attempt>, a: seq<Work>, now: Work, b: seq<Work>)
    requires InOrder(all, ids, calls, a + ([now] + b))
    ensures InOrder(all, ids, calls + CallsOf(Some(now)), a + (Held(Left(Some(now))) + b))
  {
    var o, left := WorkUnits.Execute(now), Held(Left(Some(now)));
    DueConcat(a, [now] + b, ids);
    DueConcat([now], b, ids);
    DueOne(now, ids);
    DueOne(o.rest, ids);
    DueConcat(a, left + b, ids);
    DueConcat(left, b, ids);
    ExecuteDue(now, o, ids);
    ExecuteHolds(now, o, ids);
    MineConcat(calls, o.calls, ids);
    if Holds(now, ids) { NothingDue(a, ids); }
    CallTerms(Mine(calls, ids), Due(a, ids), Mine(o.calls, ids), Due(left, ids), Due(b, ids));
  }

  lemma CallTerms<T>(c: seq<T>, a: seq<T>, m: seq<T>, l: seq<T>, b: seq<T>)
    requires a == [] || m == []
    ensures c + (a + ((m + l) + b)) == (c + m) + (a + (l + b))
  {
  }

  lemma {:induction false} AllIdle(h: seq<Option<Work>>)
    requires forall i :: 0 <= i < |h| ==> h[i].None?
    ensures AllHeld(h) == [] && Busy(h) == 0
  {
    if h != [] {
      AllIdle(h[1..]);
    }
  }

  /** The calls of a unit that shares no lambda with the others, in order: in a chain the
      units take turns or come one after the other, as the chain rotates or not. */
  ghost predicate CallsInOrder(units: seq<Work>, calls: seq<Attempt>) {
    forall k: nat :: Apart(units, k) ==> Mine(calls, Ids(units[k])) == T.InTurn(units[k])
  }

  ghost predicate EachInOrder(units: seq<Work>, calls: seq<Attempt>, pending: seq<Work>) {
    forall k: nat :: Apart(units, k) ==> InOrder(Drive(units[k]), Ids(units[k]), calls, pending)
  }

  lemma PassKeepsOrder(units: seq<Work>, made: seq<Attempt>,
                       h: seq<Option<Work>>, i: nat, unit: Option<Work>, work: seq<Work>,
                       next: Option<Work>, rest: seq<Work>, calls: seq<Attempt>, h': seq<Option<Work>>)
    requires i < |h| && Passed(h, i, unit, work, next, rest, calls, h')
    requires EachInOrder(units, made, Pending(unit, work, h))
    ensures EachInOrder(units, made + calls, Pending(next, rest, h'))
  {
    forall k: nat | Apart(units, k)
      ensures InOrder(Drive(units[k]), Ids(units[k]), made + calls, Pending(next, rest, h'))
    {
      PassInOrder(Drive(units[k]), Ids(units[k]), made, h, i, unit, work, next, rest, calls, h');
    }
  }

  lemma StartInOrder(units: seq<Work>, unit: Option<Work>, rest: seq<Work>, h: seq<Option<Work>>)
    requires Popped(units, unit, rest) && forall i :: 0 <= i < |h| ==> h[i].None?
    ensures EachInOrder(units, [], Pending(unit, rest, h))
  {
    AllIdle(h);
    assert Pending(unit, rest, h) == units;
    forall k: nat | Apart(units, k) ensures InOrder(Drive(units[k]), Ids(units[k]), [], units) {
      DueOfApart(units, k);
    }
  }

  lemma EndInOrder(units: seq<Work>, calls: seq<Attempt>, h: seq<Option<Work>>)
    requires Busy(h) == 0 && EachInOrder(units, calls, Pending(None, [], h))
    ensures CallsInOrder(units, calls)
  {
    NoneBusy(h);
    AllIdle(h);
    assert Pending(None, [], h) == [];
    forall k: nat | Apart(units, k) ensures Mine(calls, Ids(units[k])) == T.InTurn(units[k]) {
      assert InOrder(Drive(units[k]), Ids(units[k]), calls, []);
      T.DriveInTurn(units[k]);
    }
  }

  // ------------------------------------------------------- the order of all calls

  /** What a holder of a unit, or of none, has still to call, execution by execution. */
  function Plan(o: Option<Work>): seq<seq<Attempt>> {
    if o.None? then [] else T.Schedule(o.value)
  }

  function Plans(h: seq<Option<Work>>): (r: seq<seq<seq<Attempt>>>)
    ensures |r| == |h| && forall i :: 0 <= i < |h| ==> r[i] == Plan(h[i])
  {
    seq(|h|, i requires 0 <= i < |h| => Plan(h[i]))
  }

  /** The units in the queue, the one in hand first. */
  function Queued(unit: Option<Work>, work: seq<Work>): seq<seq<seq<Attempt>>> {
    T.Schedules(Held(unit) + work)
  }

  /** The calls made so far, and those to come when the turn is at worker i. */
  ghost predicate OnPlan(all: seq<Attempt>, calls: seq<Attempt>, h: seq<Option<Work>>, i: nat,
                         unit: Option<Work>, work: seq<Work>)
    requires i <= |h|
  {
    calls + T.Flat(From(Plans(h), i, Queued(unit, work))) == all
  }

  /** A worker's execution serves the first element of its plan. */
  lemma PlanServed(o: Option<Work>)
    ensures T.Flat(Head(Plan(o))) == CallsOf(o) && Plan(Left(o)) == Tail(Plan(o))
  {
    if o.Some? {
      T.ExecuteTakesTurn(o.value);
      var p := Plan(o);
      assert p[1..] == T.After(WorkUnits.Execute(o.value));
      assert [p[0]][1..] == [] && p[0] + [] == p[0];
    }
  }

  lemma PlanFull(o: Option<Work>)
    ensures Plan(o) == [] <==> o.None?
  {
    if o.Some? { T.NeverEmpty(o.value); }
  }

  lemma {:induction false} QueueFull(units: seq<Work>)
    ensures Full(T.Schedules(units)) && |T.Schedules(units)| == |units|
  {
    if units != [] {
      T.NeverEmpty(units[0]);
      QueueFull(units[1..]);
      assert forall i :: 0 < i < |units| ==> T.Schedules(units)[i] == T.Schedules(units[1..])[i - 1];
    }
  }

  lemma PlansUpdate(h: seq<Option<Work>>, i: nat, o: Option<Work>)
    requires i < |h|
    ensures Plans(h[i := o]) == Plans(h)[i := Plan(o)]
  {
  }

  /** The queue after pop_front. */
  lemma QueuePopped(unit: Option<Work>, work: seq<Work>, next: Option<Work>, rest: seq<Work>)
    requires Popped(work, next, rest) && (unit.None? ==> work == [])
    ensures unit.None? ==> Queued(unit, work) == [] && Queued(next, rest) == []
    ensures unit.Some? ==> Queued(unit, work) != [] && Queued(unit, work)[0] == Plan(unit)
                           && Queued(unit, work)[1..] == Queued(next, rest)
  {
    assert Held(next) + rest == work;
    if unit.Some? {
      assert (Held(unit) + work)[1..] == work;
    }
  }

  lemma {:induction false} FlatConcat<A>(a: seq<seq<A>>, b: seq<seq<A>>)
    ensures T.Flat(a + b) == T.Flat(a) + T.Flat(b)
  {
    ConcatTail(a, b);
    if a != [] {
      FlatConcat(a[1..], b);
      Associate(a[0], T.Flat(a[1..]), T.Flat(b));
    }
  }

  /** A pass is the turn of one worker. */
  lemma PassOnPlan(all: seq<Attempt>, made: seq<Attempt>,
                   h: seq<Option<Work>>, i: nat, unit: Option<Work>, work: seq<Work>,
                   next: Option<Work>, rest: seq<Work>, calls: seq<Attempt>, h': seq<Option<Work>>)
    requires i < |h| && Passed(h, i, unit, work, next, rest, calls, h') && (unit.None? ==> work == [])
    requires OnPlan(all, made, h, i, unit, work)
    ensures |h'| == |h| && OnPlan(all, made + calls, h', i + 1, next, rest)
  {
    var now := if h[i].None? then unit else h[i];
    PlanFull(h[i]);
    PlanServed(now);
    PlansUpdate(h, i, Left(now));
    if h[i].None? { QueuePopped(unit, work, next, rest); }
    OneTurn(Plans(h), i, Queued(unit, work), Plan(now), Queued(next, rest));
    var more := From(Plans(h'), i + 1, Queued(next, rest));
    FlatConcat(Head(Plan(now)), more);
    Associate(made, calls, T.Flat(more));
  }

  /** After the last worker the first one has its turn. */
  lemma RoundOnPlan(all: seq<Attempt>, calls: seq<Attempt>, h: seq<Option<Work>>, unit: Option<Work>, work: seq<Work>)
    requires h != [] && OnPlan(all, calls, h, |h|, unit, work)
    ensures OnPlan(all, calls, h, 0, unit, work)
  {
    QueueFull(Held(unit) + work);
    FromStart(Plans(h), Queued(unit, work));
  }

  /** All calls, in order: the workers take turns, and one that has finished its unit takes
      the next of the list at its turn. */
  function InShifts(workers: nat, units: seq<Work>): seq<Attempt> {
    T.Flat(Shifts(Copies(workers, []), T.Schedules(units)))
  }

  lemma PoppedAll(work: seq<Work>, unit: Option<Work>, rest: seq<Work>)
    requires Popped(work, unit, rest)
    ensures Held(unit) + rest == work
  {
  }

  lemma NoPlans(h: seq<Option<Work>>)
    requires forall i :: 0 <= i < |h| ==> h[i].None?
    ensures Plans(h) == Copies(|h|, [])
  {
    AreCopies(Plans(h), []);
  }

  lemma StartOnPlan(h: seq<Option<Work>>, unit: Option<Work>, work: seq<Work>) returns (all: seq<Attempt>)
    requires h != []
    ensures all == T.Flat(Shifts(Plans(h), Queued(unit, work))) && OnPlan(all, [], h, 0, unit, work)
  {
    all := T.Flat(Shifts(Plans(h), Queued(unit, work)));
    QueueFull(Held(unit) + work);
    FromStart(Plans(h), Queued(unit, work));
    assert [] + all == all;
  }

  lemma EndOnPlan(all: seq<Attempt>, calls: seq<Attempt>, h: seq<Option<Work>>, i: nat)
    requires i <= |h| && h != [] && Busy(h) == 0 && OnPlan(all, calls, h, i, None, [])
    ensures calls == all
  {
    NoneBusy(h);
    NothingFrom(Plans(h), i);
    assert Held(None) + [] == [];
    assert calls + [] == calls;
  }

  /** Some way through a run: nothing owed is lost, and the calls are in order. */
  ghost predicate OnWay(units: seq<Work>, all: seq<Attempt>, calls: seq<Attempt>,
                        h: seq<Option<Work>>, i: nat, unit: Option<Work>, work: seq<Work>)
    requires i <= |h|
  {
    && Accounted(OwedBy(units), calls, unit, work, h) && EachInOrder(units, calls, Pending(unit, work, h))
    && OnPlan(all, calls, h, i, unit, work)
  }

  /** And at its end. */
  ghost predicate Served(units: seq<Work>, all: seq<Attempt>, calls: seq<Attempt>) {
    multiset(calls) == OwedBy(units) && CallsInOrder(units, calls) && calls == all
  }

  lemma PassOnWay(units: seq<Work>, all: seq<Attempt>, made: seq<Attempt>,
                  h: seq<Option<Work>>, i: nat, unit: Option<Work>, work: seq<Work>,
                  next: Option<Work>, rest: seq<Work>, calls: seq<Attempt>, h': seq<Option<Work>>)
    requires i < |h| && Passed(h, i, unit, work, next, rest, calls, h') && (unit.None? ==> work == [])
    requires OnWay(units, all, made, h, i, unit, work)
    ensures |h'| == |h| && OnWay(units, all, made + calls, h', i + 1, next, rest)
  {
    PassAccounts(OwedBy(units), made, h, i, unit, work, next, rest, calls, h');
    PassKeepsOrder(units, made, h, i, unit, work, next, rest, calls, h');
    PassOnPlan(all, made, h, i, unit, work, next, rest, calls, h');
  }

  lemma RoundOnWay(units: seq<Work>, all: seq<Attempt>, calls: seq<Attempt>, h: seq<Option<Work>>,
                   unit: Option<Work>, work: seq<Work>)
    requires h != [] && OnWay(units, all, calls, h, |h|, unit, work)
    ensures OnWay(units, all, calls, h, 0, unit, work)
  {
    RoundOnPlan(all, calls, h, unit, work);
  }

  lemma Start(units: seq<Work>, unit: Option<Work>, rest: seq<Work>, h: seq<Option<Work>>)
    returns (all: seq<Attempt>)
    requires h != [] && Popped(units, unit, rest) && forall i :: 0 <= i < |h| ==> h[i].None?
    ensures all == InShifts(|h|, units) && OnWay(units, all, [], h, 0, unit, rest)
  {
    StartAccounts(units, unit, rest, h);
    StartInOrder(units, unit, rest, h);
    all := StartOnPlan(h, unit, rest);
    PoppedAll(units, unit, rest);
    NoPlans(h);
  }

  lemma End(units: seq<Work>, all: seq<Attempt>, calls: seq<Attempt>, h: seq<Option<Work>>, i: nat)
    requires i <= |h| && h != [] && Busy(h) == 0 && OnWay(units, all, calls, h, i, None, [])
    ensures Served(units, all, calls) && forall k :: 0 <= k < |h| ==> h[k].None?
  {
    EndAccounts(OwedBy(units), calls, h);
    EndInOrder(units, calls, h);
    EndOnPlan(all, calls, h, i);
  }

  class Distributor {
    const workers: seq<InlineWorker>
    var busy: seq<bool>
    var numBusy: nat

    ghost predicate Distinct()
    {
      forall i, j :: 0 <= i < j < |workers| ==> workers[i] != workers[j]
    }

    /** The workers hold h, and the flags and the count say who holds a unit. */
    ghost predicate Holding(h: seq<Option<Work>>)
      reads this, workers
    {
      && Distinct() && |h| == |workers| == |busy| && numBusy == Busy(h)
      && forall i :: 0 <= i < |h| ==> workers[i].curr == h[i] && busy[i] == h[i].Some?
    }

    ghost predicate Idle()
      reads this, workers
    {
      && Distinct() && |busy| == |workers| && numBusy == 0
      && forall i :: 0 <= i < |workers| ==> workers[i].curr == None && !busy[i]
    }

    constructor (workers: seq<InlineWorker>)
      requires forall i, j :: 0 <= i < j < |workers| ==> workers[i] != workers[j]
      requires forall i :: 0 <= i < |workers| ==> workers[i].curr == None
      ensures this.workers == workers && Idle()
    {
      this.workers := workers;
      busy := seq(|workers|, _ => false);
      numBusy := 0;
    }

    lemma IdleHolds() returns (h: seq<Option<Work>>)
      requires Idle()
      ensures Holding(h) && forall i :: 0 <= i < |h| ==> h[i].None?
    {
      h := Copies(|workers|, None);
      AllIdle(h);
    }

    lemma HoldsIdle(h: seq<Option<Work>>)
      requires Holding(h) && numBusy == 0
      ensures Idle()
    {
      NoneBusy(h);
    }

    /** set_busy or set_not_busy, and the count with it. */
    method Note(index: nat, complete: bool, ghost h: seq<Option<Work>>, ghost o: Option<Work>)
      requires |h| == |busy| && index < |h|
      requires numBusy == Busy(h) && forall i :: 0 <= i < |h| ==> busy[i] == h[i].Some?
      requires complete == o.None?
      modifies this`busy, this`numBusy
      ensures numBusy == Busy(h[index := o]) && busy == old(busy)[index := o.Some?]
    {
      BusyUpdate(h, index, o);
      if complete {
        if busy[index] {
          numBusy := numBusy - 1;
        }
        busy := busy[index := false];
      } else {
        if !busy[index] {
          numBusy := numBusy + 1;
        }
        busy := busy[index := true];
      }
    }

    /** One pass of the loop. */
    method Pass(index: nat, unit: Option<Work>, list: WorkList, ghost h: seq<Option<Work>>)
      returns (next: Option<Work>, calls: seq<Attempt>, ghost h': seq<Option<Work>>)
      requires Holding(h) && index < |workers|
      modifies this`busy, this`numBusy, workers[index], list
      ensures Holding(h') && Passed(h, index, unit, old(list.work), next, list.work, calls, h')
    {
      var w := workers[index];
      next := unit;
      var added := w.Add(unit);
      if added {
        next := list.PopFront();
      }
      var status, made := w.Execute();
      calls := made;
      h' := h[index := w.curr];
      Note(index, status.complete, h, w.curr);
    }

    /** The pass, with what it means for the loop. */
    method PassOn(index: nat, unit: Option<Work>, list: WorkList, calls: seq<Attempt>,
                  ghost h: seq<Option<Work>>, ghost units: seq<Work>, ghost all: seq<Attempt>)
      returns (next: Option<Work>, calls': seq<Attempt>, ghost h': seq<Option<Work>>)
      requires Holding(h) && index < |workers| && (unit.None? ==> list.work == [] && numBusy > 0)
      requires OnWay(units, all, calls, h, index, unit, list.work)
      modifies this`busy, this`numBusy, workers[index], list
      ensures Holding(h') && (next.None? ==> list.work == [])
      ensures OnWay(units, all, calls', h', index + 1, next, list.work)
      ensures Decreases(ToDo(unit, old(list.work), h), Turns(unit, h, index),
                        ToDo(next, list.work, h'), Turns(next, h', After(index, |h|)))
    {
      var made;
      next, made, h' := Pass(index, unit, list, h);
      calls' := calls + made;
      PassDecreases(h, index, unit, old(list.work), next, list.work, made, h');
      PassOnWay(units, all, calls, h, index, unit, old(list.work), next, list.work, made, h');
    }

    /** The loop of run. */
    method RunLoop(first: Option<Work>, list: WorkList, ghost none: seq<Option<Work>>, ghost units: seq<Work>,
                   ghost all: seq<Attempt>)
      returns (calls: seq<Attempt>, ghost h: seq<Option<Work>>)
      requires workers != [] && Holding(none) && (first.None? ==> list.work == [])
      requires |none| > 0 && OnWay(units, all, [], none, 0, first, list.work)
      modifies this`busy, this`numBusy, workers, list
      ensures Holding(h) && numBusy == 0 && list.work == []
      ensures Served(units, all, calls)
    {
      calls, h := [], none;
      var index, unit := 0, first;
      while unit.Some? || numBusy != 0
        invariant Holding(h) && index < |workers|
        invariant unit.None? ==> list.work == []
        invariant OnWay(units, all, calls, h, index, unit, list.work)
        decreases ToDo(unit, list.work, h), Turns(unit, h, index)
      {
        unit, calls, h := PassOn(index, unit, list, calls, h, units, all);
        index := index + 1;
        if index == |workers| {
          RoundOnWay(units, all, calls, h, unit, list.work);
          index := 0;
        }
      }
      End(units, all, calls, h, index);
    }

    /** run with a worker at least. */
    method RunAll(list: WorkList) returns (calls: seq<Attempt>)
      requires Idle() && workers != []
      modifies this`busy, this`numBusy, workers, list
      ensures Idle() && list.work == []
      ensures Served(old(list.work), InShifts(|workers|, old(list.work)), calls)
    {
      ghost var units := list.work;
      ghost var h := IdleHolds();
      var first := list.PopFront();
      ghost var all := Start(units, first, list.work, h);
      calls, h := RunLoop(first, list, h, units, all);
      HoldsIdle(h);
    }

    /** Runs until nothing is left: it terminates, every unit of the list, nested chains
        included, makes exactly the calls it owes, and all workers are idle again. The
        calls of a unit that shares no lambda with the others come in its own order, and
        all calls together in shifts. */
    method Run(list: WorkList) returns (calls: seq<Attempt>)
      requires Idle()
      modifies this`busy, this`numBusy, workers, list
      ensures Idle()
      ensures workers == [] ==> list.work == old(list.work) && calls == []
      ensures workers != [] ==> list.work == [] && multiset(calls) == OwedBy(old(list.work))
      ensures workers != [] ==> CallsInOrder(old(list.work), calls)
      ensures workers != [] ==> calls == InShifts(|workers|, old(list.work))
    {
      if |workers| == 0 {
        return [];
      }
      calls := RunAll(list);
    }
  }
}
