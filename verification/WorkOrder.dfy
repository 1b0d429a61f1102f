/** The order of calls: executing a unit makes its calls in the order in which driving it
    alone would, whatever other units are executed in between. */
module WorkOrder {
  import opened Seqs
  import opened WorkUnits

  /** The lambdas of a unit. */
  function Ids(u: Work): set<int>
    decreases u
  {
    match u
    case Lambda(id, _, _) => {id}
    case Chain(units, _) => IdsOf(units)
  }

  function IdsOf(units: seq<Work>): set<int>
    decreases units
  {
    if units == [] then {} else Ids(units[0]) + IdsOf(units[1..])
  }

  /** The calls of some lambdas, in order. */
  function Mine(calls: seq<Attempt>, ids: set<int>): seq<Attempt> {
    if calls == [] then []
    else (if calls[0].id in ids then [calls[0]] else []) + Mine(calls[1..], ids)
  }

  lemma {:induction false} MineConcat(a: seq<Attempt>, b: seq<Attempt>, ids: set<int>)
    ensures Mine(a + b, ids) == Mine(a, ids) + Mine(b, ids)
  {
    ConcatTail(a, b);
    if a != [] {
      MineConcat(a[1..], b, ids);
    }
  }

  ghost predicate Within(calls: seq<Attempt>, ids: set<int>) {
    forall i :: 0 <= i < |calls| ==> calls[i].id in ids
  }

  lemma {:induction false} MineAll(calls: seq<Attempt>, ids: set<int>)
    requires Within(calls, ids)
    ensures Mine(calls, ids) == calls
  {
    if calls != [] {
      assert Within(calls[1..], ids);
      MineAll(calls[1..], ids);
    }
  }

  lemma {:induction false} MineNone(calls: seq<Attempt>, own: set<int>, ids: set<int>)
    requires Within(calls, own) && own !! ids
    ensures Mine(calls, ids) == []
  {
    if calls != [] {
      assert Within(calls[1..], own) && calls[0].id in own;
      MineNone(calls[1..], own, ids);
    }
  }

  lemma {:induction false} IdsConcat(a: seq<Work>, b: seq<Work>)
    ensures IdsOf(a + b) == IdsOf(a) + IdsOf(b)
  {
    ConcatTail(a, b);
    if a != [] {
      IdsConcat(a[1..], b);
    }
  }

  /** An execution calls only the unit's own lambdas, and leaves no others. */
  lemma {:induction false} ExecuteWithin(u: Work)
    ensures Within(Execute(u).calls, Ids(u)) && Ids(Execute(u).rest) <= Ids(u)
    decreases u
  {
    if u.Chain? && u.units != [] {
      var o, tail := Execute(u.units[0]), u.units[1..];
      ExecuteWithin(u.units[0]);
      IdsConcat(tail, [o.rest]);
      IdsConcat([o.rest], tail);
      assert IdsOf([o.rest]) == Ids(o.rest) by { assert [o.rest][1..] == []; }
    }
  }

  lemma {:induction false} DriveWithin(u: Work)
    ensures Within(Drive(u), Ids(u))
    decreases Rounds(u)
  {
    ExecuteProgress(u);
    ExecuteWithin(u);
    if !Execute(u).status.complete {
      DriveWithin(Execute(u).rest);
    }
  }

  /** The calls of some lambdas that units still have to make, one unit after the other. */
  function Due(units: seq<Work>, ids: set<int>): seq<Attempt> {
    if units == [] then [] else Mine(Drive(units[0]), ids) + Due(units[1..], ids)
  }

  predicate Holds(u: Work, ids: set<int>) {
    !(Ids(u) !! ids)
  }

  /** How many of the units hold any of these lambdas. */
  function Holders(units: seq<Work>, ids: set<int>): nat {
    if units == [] then 0 else (if Holds(units[0], ids) then 1 else 0) + Holders(units[1..], ids)
  }

  lemma {:induction false} HoldersConcat(a: seq<Work>, b: seq<Work>, ids: set<int>)
    ensures Holders(a + b, ids) == Holders(a, ids) + Holders(b, ids)
  {
    ConcatTail(a, b);
    if a != [] {
      HoldersConcat(a[1..], b, ids);
    }
  }

  lemma {:induction false} DueConcat(a: seq<Work>, b: seq<Work>, ids: set<int>)
    ensures Due(a + b, ids) == Due(a, ids) + Due(b, ids)
    ensures Holders(a + b, ids) == Holders(a, ids) + Holders(b, ids)
  {
    HoldersConcat(a, b, ids);
    ConcatTail(a, b);
    if a != [] {
      var rest := (a + b)[1..];
      DueConcat(a[1..], b, ids);
      DueUnfolds(a + b, ids, Due(rest, ids));
      DueUnfolds(a, ids, Due(a[1..], ids));
      Associate(Mine(Drive(a[0]), ids), Due(a[1..], ids), Due(b, ids));
    }
  }

  lemma DueUnfolds(units: seq<Work>, ids: set<int>, rest: seq<Attempt>)
    requires units != [] && rest == Due(units[1..], ids)
    ensures Due(units, ids) == Mine(Drive(units[0]), ids) + rest
  {
  }

  lemma DueOne(u: Work, ids: set<int>)
    ensures Due([u], ids) == Mine(Drive(u), ids) && Holders([u], ids) == if Holds(u, ids) then 1 else 0
  {
    assert [u][1..] == [];
  }

  lemma {:induction false} NothingDue(units: seq<Work>, ids: set<int>)
    requires Holders(units, ids) == 0
    ensures Due(units, ids) == []
  {
    if units != [] {
      DriveWithin(units[0]);
      MineNone(Drive(units[0]), Ids(units[0]), ids);
      NothingDue(units[1..], ids);
    }
  }

  /** Where one unit at most holds the lambdas, the order of the units does not matter. */
  lemma DueSwap(a: seq<Work>, b: seq<Work>, ids: set<int>)
    requires Holders(a, ids) + Holders(b, ids) <= 1
    ensures Due(a, ids) + Due(b, ids) == Due(b, ids) + Due(a, ids)
  {
    if Holders(a, ids) == 0 { NothingDue(a, ids); } else { NothingDue(b, ids); }
  }

  lemma DriveUnfolds(u: Work, o: Outcome)
    requires o == Execute(u)
    ensures Drive(u) == if o.status.complete then o.calls else o.calls + Drive(o.rest)
  {
    ExecuteProgress(u);
    if o.status.complete { assert o.calls + [] == o.calls; }
  }

  /** What an execution leaves of what is due from a unit. */
  lemma ExecuteDue(u: Work, o: Outcome, ids: set<int>)
    requires o == Execute(u)
    ensures Mine(Drive(u), ids) == Mine(o.calls, ids) + if o.status.complete then [] else Mine(Drive(o.rest), ids)
  {
    DriveUnfolds(u, o);
    if !o.status.complete {
      MineConcat(o.calls, Drive(o.rest), ids);
    }
  }

  lemma ExecuteHolds(u: Work, o: Outcome, ids: set<int>)
    requires o == Execute(u)
    ensures Holds(o.rest, ids) ==> Holds(u, ids)
    ensures !Holds(u, ids) ==> Mine(o.calls, ids) == []
  {
    ExecuteWithin(u);
    if !Holds(u, ids) {
      MineNone(o.calls, Ids(u), ids);
    }
  }

  /** Unit k shares no lambda with the others. */
  ghost predicate Apart(units: seq<Work>, k: nat) {
    k < |units| && forall i :: 0 <= i < |units| && i != k ==> Ids(units[i]) !! Ids(units[k])
  }

  lemma {:induction false} NoHolders(units: seq<Work>, ids: set<int>)
    requires forall i :: 0 <= i < |units| ==> Ids(units[i]) !! ids
    ensures Holders(units, ids) == 0
  {
    if units != [] {
      assert Ids(units[0]) !! ids;
      assert forall i :: 0 <= i < |units[1..]| ==> units[1..][i] == units[i + 1];
      NoHolders(units[1..], ids);
    }
  }

  /** What is due of such a unit's lambdas is what driving it alone calls. */
  lemma DueOfApart(units: seq<Work>, k: nat)
    requires Apart(units, k)
    ensures Holders(units, Ids(units[k])) <= 1 && Due(units, Ids(units[k])) == Drive(units[k])
  {
    var ids, a, b := Ids(units[k]), units[..k], units[k + 1..];
    TakeDrop(units, k);
    assert units[k..] == [units[k]] + b;
    NoHolders(a, ids);
    NoHolders(b, ids);
    NothingDue(a, ids);
    NothingDue(b, ids);
    DueConcat(a, [units[k]] + b, ids);
    DueConcat([units[k]], b, ids);
    DueOne(units[k], ids);
    DriveWithin(units[k]);
    MineAll(Drive(units[k]), ids);
  }
}
