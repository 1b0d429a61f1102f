/** The calls of a unit, execution by execution, written down without executing it: a
    chain that rotates serves its units in turn, one that does not finishes each before
    the next. */
module WorkTurns {
  import opened Seqs
  import opened WorkUnits

  // ------------------------------------------------------------- taking turns

  /** The first element of each list that has one. */
  function Firsts<T>(ls: seq<seq<T>>): seq<T> {
    if ls == [] then [] else (if ls[0] == [] then [] else [ls[0][0]]) + Firsts(ls[1..])
  }

  /** What is left of them, without the lists that are used up. */
  function Rests<T>(ls: seq<seq<T>>): seq<seq<T>> {
    if ls == [] then [] else (if |ls[0]| <= 1 then [] else [ls[0][1..]]) + Rests(ls[1..])
  }

  function Total<T>(ls: seq<seq<T>>): nat {
    if ls == [] then 0 else |ls[0]| + Total(ls[1..])
  }

  lemma {:induction false} TotalOfRests<T>(ls: seq<seq<T>>)
    ensures Total(Rests(ls)) + |Firsts(ls)| == Total(ls)
    ensures Firsts(ls) == [] ==> Rests(ls) == []
  {
    if ls != [] {
      var l, more := ls[0], Rests(ls[1..]);
      TotalOfRests(ls[1..]);
      if |l| <= 1 {
        assert [] + more == more;
      } else {
        assert ([l[1..]] + more)[1..] == more;
      }
    }
  }

  /** Round by round: the first elements of all lists, then the same with what is left. */
  function RoundRobin<T>(ls: seq<seq<T>>): seq<T>
    decreases Total(ls)
  {
    TotalOfRests(ls);
    if Firsts(ls) == [] then [] else Firsts(ls) + RoundRobin(Rests(ls))
  }

  lemma RoundByRound<T>(ls: seq<seq<T>>)
    ensures RoundRobin(ls) == Firsts(ls) + RoundRobin(Rests(ls))
  {
    TotalOfRests(ls);
  }

  lemma {:induction false} FirstsConcat<T>(a: seq<seq<T>>, b: seq<seq<T>>)
    ensures Firsts(a + b) == Firsts(a) + Firsts(b)
  {
    ConcatTail(a, b);
    if a != [] {
      FirstsConcat(a[1..], b);
      Associate(if a[0] == [] then [] else [a[0][0]], Firsts(a[1..]), Firsts(b));
    }
  }

  lemma {:induction false} RestsConcat<T>(a: seq<seq<T>>, b: seq<seq<T>>)
    ensures Rests(a + b) == Rests(a) + Rests(b)
  {
    ConcatTail(a, b);
    if a != [] {
      RestsConcat(a[1..], b);
      Associate(if |a[0]| <= 1 then [] else [a[0][1..]], Rests(a[1..]), Rests(b));
    }
  }

  lemma OneList<T>(l: seq<T>)
    requires l != []
    ensures Firsts([l]) == [l[0]] && Rests([l]) == if |l| == 1 then [] else [l[1..]]
  {
    assert [l][1..] == [];
  }

  /** Serving the first list once and moving what is left of it to the end changes nothing
      about the order. */
  lemma {:induction false} Rotates<T>(l: seq<T>, ls: seq<seq<T>>)
    requires l != []
    ensures RoundRobin([l] + ls) == [l[0]] + RoundRobin(ls + Rests([l]))
    decreases |l|
  {
    OneList(l);
    RoundByRound([l] + ls);
    FirstsConcat([l], ls);
    RestsConcat([l], ls);
    RoundByRound(ls + Rests([l]));
    FirstsConcat(ls, Rests([l]));
    RestsConcat(ls, Rests([l]));
    if |l| > 1 {
      var m := l[1..];
      OneList(m);
      Rotates(m, Rests(ls));
      Turned(l[0], Firsts(ls), m[0], RoundRobin(Rests(ls) + Rests([m])));
    } else {
      LastTurn(l[0], Firsts(ls), Rests(ls), RoundRobin(Rests(ls)));
    }
  }

  lemma Turned<T>(x: T, f: seq<T>, y: T, more: seq<T>)
    ensures ([x] + f) + ([y] + more) == [x] + ((f + [y]) + more)
  {
  }

  lemma LastTurn<T>(x: T, f: seq<T>, rests: seq<seq<T>>, more: seq<T>)
    ensures ([x] + f) + more == [x] + ((f + []) + more)
    ensures [] + rests == rests && rests + [] == rests
  {
  }

  function Flat<T>(ls: seq<seq<T>>): seq<T> {
    if ls == [] then [] else ls[0] + Flat(ls[1..])
  }

  // --------------------------------------------------------------- the calls

  /** A lambda that fails as often as it does, then succeeds, or runs out of retries. */
  function Tries(id: int, fails: nat, retries: nat): seq<seq<Attempt>>
    decreases fails, retries
  {
    if fails == 0 then [[Attempt(id, true)]]
    else if retries == 0 then [[Attempt(id, false)]]
    else [[Attempt(id, false)]] + Tries(id, fails - 1, retries - 1)
  }

  /** The calls of each execution of a unit, in order. */
  function Schedule(u: Work): seq<seq<Attempt>>
    decreases u
  {
    match u
    case Lambda(id, fails, retries) => Tries(id, fails, retries)
    case Chain(units, rotate) =>
      if units == [] then [[]]
      else if rotate then RoundRobin(Schedules(units))
      else Flat(Schedules(units))
  }

  function Schedules(units: seq<Work>): seq<seq<seq<Attempt>>>
    decreases units
  {
    if units == [] then [] else [Schedule(units[0])] + Schedules(units[1..])
  }

  lemma {:induction false} SchedulesConcat(a: seq<Work>, b: seq<Work>)
    ensures Schedules(a + b) == Schedules(a) + Schedules(b)
  {
    ConcatTail(a, b);
    if a != [] {
      SchedulesConcat(a[1..], b);
      Associate([Schedule(a[0])], Schedules(a[1..]), Schedules(b));
    }
  }

  lemma SchedulesOne(u: Work)
    ensures Schedules([u]) == [Schedule(u)]
  {
    assert [u][1..] == [];
  }

  /** What is scheduled after an outcome. */
  function After(o: Outcome): seq<seq<Attempt>> {
    if o.status.complete then [] else Schedule(o.rest)
  }

  lemma FlatCons<T>(l: seq<T>, ls: seq<seq<T>>)
    ensures Flat([l] + ls) == l + Flat(ls)
  {
    assert ([l] + ls)[1..] == ls;
  }

  /** A chain that does not rotate goes on with the unit that is not complete. */
  lemma StraightTurn(units: seq<Work>, o: Outcome)
    requires units != [] && Schedule(units[0]) == [o.calls] + After(o)
    requires !o.status.complete ==> Schedule(o.rest) != []
    ensures var rest := if o.status.complete then units[1..] else [o.rest] + units[1..];
            Flat(Schedules(units)) == [o.calls] + Flat(Schedules(rest))
  {
    var tail := Schedules(units[1..]);
    FlatCons(Schedule(units[0]), tail);
    Associate([o.calls], After(o), Flat(tail));
    if o.status.complete {
      assert [] + Flat(tail) == Flat(tail);
    } else {
      SchedulesConcat([o.rest], units[1..]);
      SchedulesOne(o.rest);
      FlatCons(Schedule(o.rest), tail);
    }
  }

  /** A chain that rotates goes on with the next one. */
  lemma RotatingTurn(units: seq<Work>, o: Outcome)
    requires units != [] && Schedule(units[0]) == [o.calls] + After(o)
    requires !o.status.complete ==> Schedule(o.rest) != []
    ensures var rest := if o.status.complete then units[1..] else units[1..] + [o.rest];
            RoundRobin(Schedules(units)) == [o.calls] + RoundRobin(Schedules(rest))
  {
    var l, tail := Schedule(units[0]), Schedules(units[1..]);
    Rotates(l, tail);
    OneList(l);
    if o.status.complete {
      assert tail + [] == tail;
    } else {
      assert l[1..] == Schedule(o.rest);
      SchedulesConcat(units[1..], [o.rest]);
      SchedulesOne(o.rest);
    }
  }

  lemma ChainTurn(units: seq<Work>, rotate: bool, o: Outcome)
    requires units != [] && o == Execute(units[0]) && Schedule(units[0]) == [o.calls] + After(o)
    requires Schedule(o.rest) != []
    ensures Schedule(Chain(units, rotate)) == [o.calls] + After(Execute(Chain(units, rotate)))
  {
    if rotate {
      RotatingTurn(units, o);
    } else {
      StraightTurn(units, o);
    }
  }

  lemma {:induction false} NeverEmpty(u: Work)
    ensures Schedule(u) != []
    decreases u
  {
    if u.Chain? && u.units != [] {
      NeverEmpty(u.units[0]);
      RoundByRound(Schedules(u.units));
    }
  }

  /** An execution makes the calls of the first turn and leaves the others. */
  lemma {:induction false} ExecuteTakesTurn(u: Work)
    ensures Schedule(u) == [Execute(u).calls] + After(Execute(u))
    decreases u
  {
    match u
    case Lambda(id, fails, retries) =>
      if fails == 0 || retries == 0 {
        assert [Execute(u).calls] + [] == [Execute(u).calls];
      }
    case Chain(units, rotate) =>
      if units == [] {
        assert [Execute(u).calls] + [] == [[]];
      } else {
        var o := Execute(units[0]);
        ExecuteTakesTurn(units[0]);
        NeverEmpty(o.rest);
        ChainTurn(units, rotate, o);
      }
  }

  /** All calls of a unit, in order. */
  function InTurn(u: Work): seq<Attempt> {
    Flat(Schedule(u))
  }

  /** Driving a unit makes its calls in that order, chains within chains included. */
  lemma {:induction false} DriveInTurn(u: Work)
    ensures Drive(u) == InTurn(u)
    decreases Rounds(u)
  {
    var o := Execute(u);
    ExecuteProgress(u);
    ExecuteTakesTurn(u);
    FlatCons(o.calls, After(o));
    if !o.status.complete {
      DriveInTurn(o.rest);
    }
  }

  /** What the status of an execution says: whether there was a call, and whether it
      succeeded. */
  lemma {:induction false} StatusTells(u: Work)
    ensures var o := Execute(u);
      && |o.calls| <= 1 && (o.status.executed <==> o.calls != [])
      && (o.status.success <==> o.calls == [] || o.calls[0].ok)
    decreases u
  {
    if u.Chain? && u.units != [] {
      StatusTells(u.units[0]);
    }
  }
}
