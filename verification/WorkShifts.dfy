/** The order in which a distributor serves lists: in every round each worker that has
    nothing left takes the next list from the queue, and then every worker serves one
    element of what it has. */
module WorkShifts {
  import opened Seqs
  import opened WorkTurns

  datatype Shift<T> = Shift(slots: seq<seq<T>>, queue: seq<seq<T>>)

  /** The empty slots, one after the other, take the next list of the queue. */
  function Fill<T>(slots: seq<seq<T>>, queue: seq<seq<T>>): (r: Shift<T>)
    ensures |r.slots| == |slots|
    decreases |slots|
  {
    if slots == [] then Shift([], queue)
    else if slots[0] == [] && queue != [] then
      var r := Fill(slots[1..], queue[1..]);
      Shift([queue[0]] + r.slots, r.queue)
    else
      var r := Fill(slots[1..], queue);
      Shift([slots[0]] + r.slots, r.queue)
  }

  function Tail<T>(l: seq<T>): seq<T> {
    if l == [] then [] else l[1..]
  }

  /** The first element of a list, if it has one. */
  function Head<T>(l: seq<T>): seq<T> {
    if l == [] then [] else [l[0]]
  }

  function Tails<T>(ls: seq<seq<T>>): (r: seq<seq<T>>)
    ensures |r| == |ls|
  {
    if ls == [] then [] else [Tail(ls[0])] + Tails(ls[1..])
  }

  lemma TotalCons<T>(l: seq<T>, ls: seq<seq<T>>)
    ensures Total([l] + ls) == |l| + Total(ls)
  {
    assert ([l] + ls)[1..] == ls;
  }

  lemma {:induction false} TotalOfFill<T>(slots: seq<seq<T>>, queue: seq<seq<T>>)
    ensures Total(Fill(slots, queue).slots) + Total(Fill(slots, queue).queue) == Total(slots) + Total(queue)
    decreases |slots|
  {
    if slots != [] {
      if slots[0] == [] && queue != [] {
        TotalOfFill(slots[1..], queue[1..]);
        TotalCons(queue[0], Fill(slots[1..], queue[1..]).slots);
      } else {
        TotalOfFill(slots[1..], queue);
        TotalCons(slots[0], Fill(slots[1..], queue).slots);
      }
    }
  }

  lemma {:induction false} TotalOfTails<T>(ls: seq<seq<T>>)
    ensures Total(Tails(ls)) + |Firsts(ls)| == Total(ls)
  {
    if ls != [] {
      TotalOfTails(ls[1..]);
      TotalCons(Tail(ls[0]), Tails(ls[1..]));
    }
  }

  /** Round after round. */
  function Shifts<T>(slots: seq<seq<T>>, queue: seq<seq<T>>): seq<T>
    decreases Total(slots) + Total(queue)
  {
    TotalOfFill(slots, queue);
    TotalOfTails(Fill(slots, queue).slots);
    var r := Fill(slots, queue);
    if Firsts(r.slots) == [] then [] else Firsts(r.slots) + Shifts(Tails(r.slots), r.queue)
  }

  predicate Full<T>(ls: seq<seq<T>>) {
    forall i :: 0 <= i < |ls| ==> ls[i] != []
  }

  /** When nobody has anything to serve, nothing is queued. */
  lemma {:induction false} NobodyServes<T>(slots: seq<seq<T>>, queue: seq<seq<T>>)
    requires slots != [] && Full(queue) && Firsts(Fill(slots, queue).slots) == []
    ensures queue == [] && Fill(slots, queue) == Shift(slots, []) && Tails(slots) == slots
    decreases |slots|
  {
    var f := Fill(slots, queue).slots;
    assert [f[0]] + f[1..] == f;
    FirstsCons(f[0], f[1..]);
    if |slots| > 1 && (slots[0] != [] || queue == []) {
      NobodyServes(slots[1..], queue);
    }
  }

  lemma FirstsCons<T>(l: seq<T>, ls: seq<seq<T>>)
    ensures Firsts([l] + ls) == Head(l) + Firsts(ls)
  {
    assert ([l] + ls)[1..] == ls;
  }

  lemma TailsCons<T>(l: seq<T>, ls: seq<seq<T>>)
    ensures Tails([l] + ls) == [Tail(l)] + Tails(ls)
  {
    assert ([l] + ls)[1..] == ls;
  }

  lemma RoundAfterRound<T>(slots: seq<seq<T>>, queue: seq<seq<T>>)
    requires slots != [] && Full(queue)
    ensures var r := Fill(slots, queue); Shifts(slots, queue) == Firsts(r.slots) + Shifts(Tails(r.slots), r.queue)
  {
    if Firsts(Fill(slots, queue).slots) == [] {
      NobodyServes(slots, queue);
    }
  }

  /** What is still to be served when the turn is at slot i. */
  function From<T>(slots: seq<seq<T>>, i: nat, queue: seq<seq<T>>): seq<T>
    requires i <= |slots|
  {
    var r := Fill(slots[i..], queue);
    Firsts(r.slots) + Shifts(slots[..i] + Tails(r.slots), r.queue)
  }

  lemma FromStart<T>(slots: seq<seq<T>>, queue: seq<seq<T>>)
    requires slots != [] && Full(queue)
    ensures From(slots, 0, queue) == Shifts(slots, queue) == From(slots, |slots|, queue)
  {
    RoundAfterRound(slots, queue);
    assert slots[0..] == slots && slots[..0] + Tails(Fill(slots, queue).slots) == Tails(Fill(slots, queue).slots);
    assert slots[|slots|..] == [] && slots[..|slots|] + [] == slots;
    assert [] + Shifts(slots, queue) == Shifts(slots, queue);
  }

  /** The turn of slot i. */
  lemma OneTurn<T>(slots: seq<seq<T>>, i: nat, queue: seq<seq<T>>, l: seq<T>, queue': seq<seq<T>>)
    requires i < |slots|
    requires if slots[i] == [] && queue != [] then l == queue[0] && queue' == queue[1..]
             else l == slots[i] && queue' == queue
    ensures From(slots, i, queue) == Head(l) + From(slots[i := Tail(l)], i + 1, queue')
  {
    var after := slots[i := Tail(l)];
    UpdateAround(slots, i, Tail(l));
    TakeDrop(slots, i);
    var r := Fill(slots[i + 1..], queue');
    assert Fill(slots[i..], queue) == Shift([l] + r.slots, r.queue);
    FirstsCons(l, r.slots);
    TailsCons(l, r.slots);
    TurnTerms(slots, i, Tail(l), Tails(r.slots));
    Associate(Head(l), Firsts(r.slots), Shifts(after[..i + 1] + Tails(r.slots), r.queue));
  }

  lemma TurnTerms<T>(s: seq<T>, i: nat, x: T, t: seq<T>)
    requires i < |s|
    ensures s[..i] + ([x] + t) == s[i := x][..i + 1] + t
  {
  }

  /** Nothing left: nothing to serve. */
  lemma {:induction false} AllServed<T>(slots: seq<seq<T>>)
    requires forall i :: 0 <= i < |slots| ==> slots[i] == []
    ensures Fill(slots, []) == Shift(slots, []) && Firsts(slots) == [] && Tails(slots) == slots
    ensures Shifts(slots, []) == []
  {
    if slots != [] {
      AllServed(slots[1..]);
    }
  }

  lemma NothingFrom<T>(slots: seq<seq<T>>, i: nat)
    requires i <= |slots| && forall k :: 0 <= k < |slots| ==> slots[k] == []
    ensures From(slots, i, []) == []
  {
    AllServed(slots[i..]);
    AllServed(slots);
    TakeDrop(slots, i);
  }
}
