/** Work units: lambdas that may fail and be retried, and chains that drive a list of
    units. A unit is owned by one holder at a time, so it is modelled as a value. */
module WorkUnits {
  import opened Options
  import opened Seqs

  /** A lambda is given with the number of times its function fails before it first
      succeeds: nothing later is ever observed. */
  datatype Work =
    | Lambda(id: int, fails: nat, retries: nat)
    | Chain(units: seq<Work>, rotate: bool)

  /** One call of a lambda's function. */
  datatype Attempt = Attempt(id: int, ok: bool)

  /** work_status, without the unit and the exception it may carry. */
  datatype Status = Status(executed: bool, success: bool, complete: bool)

  /** What execute() leaves of the unit, reports, and calls. */
  datatype Outcome = Outcome(rest: Work, status: Status, calls: seq<Attempt>)

  function Execute(u: Work): Outcome
    decreases u
  {
    match u
    case Lambda(id, fails, retries) =>
      if fails == 0 then Outcome(u, Status(true, true, true), [Attempt(id, true)])
      else if retries > 0 then
        Outcome(Lambda(id, fails - 1, retries - 1), Status(true, false, false), [Attempt(id, false)])
      else Outcome(Lambda(id, fails - 1, 0), Status(true, false, true), [Attempt(id, false)])
    case Chain(units, rotate) =>
      if units == [] then Outcome(u, Status(false, true, true), [])
      else
        var o := Execute(units[0]);
        var rest := if o.status.complete then units[1..]
                    else if rotate then units[1..] + [o.rest] else [o.rest] + units[1..];
        Outcome(Chain(rest, rotate), o.status.(complete := rest == []), o.calls)
  }

  /** How often a unit has to be executed. */
  function Rounds(u: Work): (n: nat)
    ensures n > 0
    decreases u
  {
    match u
    case Lambda(_, fails, retries) => 1 + if fails < retries then fails else retries
    case Chain(units, _) => if units == [] then 1 else RoundsOf(units)
  }

  function RoundsOf(units: seq<Work>): (n: nat)
    ensures units != [] ==> n > 0
    decreases units
  {
    if units == [] then 0 else Rounds(units[0]) + RoundsOf(units[1..])
  }

  /** The calls a unit owes: a lambda is called until it first succeeds, or once more
      than it has retries. */
  function Owed(u: Work): multiset<Attempt>
    decreases u
  {
    match u
    case Lambda(id, fails, retries) =>
      if fails <= retries then multiset{Attempt(id, true)}[Attempt(id, false) := fails]
      else multiset{}[Attempt(id, false) := retries + 1]
    case Chain(units, _) => OwedBy(units)
  }

  function OwedBy(units: seq<Work>): multiset<Attempt>
    decreases units
  {
    if units == [] then multiset{} else Owed(units[0]) + OwedBy(units[1..])
  }

  lemma {:induction false} RoundsConcat(a: seq<Work>, b: seq<Work>)
    ensures RoundsOf(a + b) == RoundsOf(a) + RoundsOf(b)
    ensures OwedBy(a + b) == OwedBy(a) + OwedBy(b)
  {
    ConcatTail(a, b);
    if a != [] {
      RoundsConcat(a[1..], b);
    }
  }

  lemma RoundsOne(u: Work)
    ensures RoundsOf([u]) == Rounds(u) && OwedBy([u]) == Owed(u)
  {
    assert [u][1..] == [];
  }

  /** An unfinished unit goes to either end of its chain: the order does not matter to
      what is left to do. */
  lemma PutBackKeeps(u: Work, tail: seq<Work>, rotate: bool)
    ensures RoundsOf(if rotate then tail + [u] else [u] + tail) == Rounds(u) + RoundsOf(tail)
    ensures OwedBy(if rotate then tail + [u] else [u] + tail) == Owed(u) + OwedBy(tail)
  {
    RoundsConcat(tail, [u]);
    RoundsConcat([u], tail);
    RoundsOne(u);
  }

  /** Executing u uses up one round and the calls it makes; the last round is the one
      that completes, and it leaves nothing owed. */
  ghost predicate UsesOneRound(u: Work, o: Outcome) {
    && (o.status.complete <==> Rounds(u) == 1)
    && (!o.status.complete ==> Rounds(o.rest) == Rounds(u) - 1)
    && Owed(u) == multiset(o.calls) + if o.status.complete then multiset{} else Owed(o.rest)
  }

  lemma ChainProgress(units: seq<Work>, rotate: bool, o: Outcome)
    requires units != [] && o == Execute(units[0]) && UsesOneRound(units[0], o)
    ensures UsesOneRound(Chain(units, rotate), Execute(Chain(units, rotate)))
  {
    var tail := units[1..];
    assert RoundsOf(units) == Rounds(units[0]) + RoundsOf(tail) && OwedBy(units) == Owed(units[0]) + OwedBy(tail);
    if !o.status.complete {
      PutBackKeeps(o.rest, tail, rotate);
    }
  }

  lemma {:induction false} ExecuteProgress(u: Work)
    ensures UsesOneRound(u, Execute(u))
    decreases u
  {
    match u
    case Lambda(id, fails, retries) =>
    case Chain(units, rotate) =>
      if units != [] {
        ExecuteProgress(units[0]);
        ChainProgress(units, rotate, Execute(units[0]));
      }
  }

  /** All calls of a unit executed again and again until it reports completion. */
  function Drive(u: Work): seq<Attempt>
    decreases Rounds(u)
  {
    ExecuteProgress(u);
    Execute(u).calls + if Execute(u).status.complete then [] else Drive(Execute(u).rest)
  }

  /** Driving a unit, nested chains included, makes exactly the calls it owes. */
  lemma {:induction false} DriveMakesOwedCalls(u: Work)
    ensures multiset(Drive(u)) == Owed(u)
    decreases Rounds(u)
  {
    ExecuteProgress(u);
    if !Execute(u).status.complete {
      DriveMakesOwedCalls(Execute(u).rest);
    }
  }

  function Failures(id: int, n: nat): seq<Attempt> {
    if n == 0 then [] else [Attempt(id, false)] + Failures(id, n - 1)
  }

  /** A lambda fails as often as it does, then succeeds; or fails once more than it has
      retries. */
  lemma {:induction false} LambdaIsRetried(id: int, fails: nat, retries: nat)
    ensures Drive(Lambda(id, fails, retries)) ==
            if fails <= retries then Failures(id, fails) + [Attempt(id, true)] else Failures(id, retries + 1)
  {
    if fails > 0 && retries > 0 {
      LambdaIsRetried(id, fails - 1, retries - 1);
    }
  }
}
