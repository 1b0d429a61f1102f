/** The jobs of the pool: every accepted job has one owner until it is subtracted from
    the counter, which lags behind by the posts that have not counted yet. For any
    number of clients, with or without stops. */
module PoolJobs {
  import opened ThreadPool

  /** The job a worker has popped and not yet subtracted from the counter. */
  function Hand(pc: WorkerPC): set<Job> {
    match pc
    case Execute(j) => {j}
    case Again(j) => {j}
    case Complete(j) => {j}
    case Uncount(j) => {j}
    case _ => {}
  }

  /** Worker w holds, on its stack or in hand, exactly the jobs it owns, each once. */
  ghost predicate HoldsOwn(k: Worker, owner: map<Job, nat>, w: nat) {
    && (forall i, j :: 0 <= i < j < |k.stack| ==> k.stack[i] != k.stack[j])
    && (forall j :: j in Hand(k.pc) ==> j !in k.stack)
    && (forall j :: (j in owner && owner[j] == w) <==> (j in k.stack || j in Hand(k.pc)))
  }

  /** A job in hand has run before it is completed, and is completed once. */
  ghost predicate HandOk(k: Worker, ran: multiset<Job>, completed: set<Job>) {
    && (forall j :: j in k.stack ==> j !in completed)
    && match k.pc
       case Execute(j) => j !in completed
       case Again(j) => j in ran && j !in completed
       case Complete(j) => j in ran && j !in completed
       case Uncount(j) => j in completed
       case _ => true
  }

  /** Between its push and the increment of the counter. */
  predicate MidPost(p: ClientPC) {
    p.SetWork? || p.NotifyWork? || p.Count?
  }

  function One(p: ClientPC): nat {
    if MidPost(p) then 1 else 0
  }

  /** How many clients are there. */
  function Uncounted(clients: seq<ClientPC>): nat {
    if clients == [] then 0 else One(clients[0]) + Uncounted(clients[1..])
  }

  lemma {:induction false} UncountedUpdate(clients: seq<ClientPC>, c: nat, p: ClientPC)
    requires c < |clients|
    ensures Uncounted(clients[c := p]) == Uncounted(clients) - One(clients[c]) + One(p)
  {
    if c > 0 {
      assert clients[c := p][1..] == clients[1..][c - 1 := p];
      UncountedUpdate(clients[1..], c - 1, p);
    } else {
      assert clients[c := p][1..] == clients[1..];
    }
  }

  lemma {:induction false} UncountedWake(clients: seq<ClientPC>)
    ensures Uncounted(WakeClients(clients)) == Uncounted(clients)
  {
    if clients != [] {
      assert WakeClients(clients)[1..] == WakeClients(clients[1..]);
      UncountedWake(clients[1..]);
    }
  }

  lemma {:induction false} NoneUncounted(clients: seq<ClientPC>)
    ensures Uncounted(clients) == 0 <==> forall c :: 0 <= c < |clients| ==> !MidPost(clients[c])
  {
    if clients != [] {
      NoneUncounted(clients[1..]);
      assert forall c :: 0 < c < |clients| ==> clients[c] == clients[1..][c - 1];
    }
  }

  ghost predicate HaveRun(completed: set<Job>, ran: multiset<Job>) {
    forall j :: j in completed ==> j in ran
  }

  ghost predicate History(s: State, owner: map<Job, nat>) {
    && owner.Keys <= s.accepted <= owner.Keys + s.completed
    && HaveRun(s.completed, s.ran) && s.completed <= s.accepted
    && forall j :: j in owner ==> owner[j] < |s.workers|
  }

  /** No job is offered twice, or after it was accepted. */
  ghost predicate OffersOk(s: State) {
    && (forall c :: 0 <= c < |s.clients| ==> Offered(s.clients[c]) !! s.accepted)
    && (forall c, d :: 0 <= c < d < |s.clients| ==> Offered(s.clients[c]) !! Offered(s.clients[d]))
  }

  ghost predicate Held(s: State, owner: map<Job, nat>) {
    && (forall w :: 0 <= w < |s.workers| ==> HoldsOwn(s.workers[w], owner, w))
    && (forall w :: 0 <= w < |s.workers| ==> HandOk(s.workers[w], s.ran, s.completed))
  }

  ghost predicate JobsInv(s: State, owner: map<Job, nat>) {
    && Inv(s) && Held(s, owner) && History(s, owner) && OffersOk(s)
    && s.counter == |owner| - Uncounted(s.clients)
  }

  lemma LessOne(m: map<Job, nat>, j: Job)
    requires j in m
    ensures |m - {j}| == |m| - 1
  {
    assert (m - {j}).Keys == m.Keys - {j};
    assert |m.Keys| == |m| && |(m - {j}).Keys| == |m - {j}|;
  }

  lemma OneMore(m: map<Job, nat>, j: Job, w: nat)
    requires j !in m
    ensures |m[j := w]| == |m| + 1
  {
    assert m[j := w].Keys == m.Keys + {j};
    assert |m.Keys| == |m| && |m[j := w].Keys| == |m[j := w]|;
  }

  /** Who owns which job after a step: a push adds one, a subtraction removes one. */
  ghost function OwnerAfter(s: State, step: Step, owner: map<Job, nat>): map<Job, nat> {
    match step
    case WorkerRuns(w, _) =>
      if w < |s.workers| && s.workers[w].pc.Uncount? then owner - {s.workers[w].pc.j} else owner
    case ClientRuns(c) =>
      if c < |s.clients| && s.clients[c].Push? then owner[s.clients[c].j := s.clients[c].i] else owner
    case _ => owner
  }

  lemma PopKeepsHolds(k: Worker, owner: map<Job, nat>, w: nat)
    requires HoldsOwn(k, owner, w) && k.pc.Pop? && k.stack != []
    ensures HoldsOwn(k.(stack := k.stack[1..], pc := Execute(k.stack[0])), owner, w)
  {
    assert forall j :: j in k.stack <==> j == k.stack[0] || j in k.stack[1..];
    assert forall i :: 0 < i < |k.stack| ==> k.stack[i] == k.stack[1..][i - 1] && k.stack[i] != k.stack[0];
  }

  lemma PushKeepsHolds(k: Worker, owner: map<Job, nat>, w: nat, j: Job)
    requires HoldsOwn(k, owner, w) && j !in owner
    ensures HoldsOwn(k.(stack := [j] + k.stack), owner[j := w], w)
  {
    var stack := [j] + k.stack;
    assert forall x :: x in stack <==> x == j || x in k.stack;
    assert j !in k.stack && j !in Hand(k.pc);
  }

  lemma SameHolds(k: Worker, owner: map<Job, nat>, w: nat, k': Worker)
    requires HoldsOwn(k, owner, w) && k'.stack == k.stack && Hand(k'.pc) == Hand(k.pc)
    ensures HoldsOwn(k', owner, w)
  {
  }

  lemma UncountKeepsHolds(k: Worker, owner: map<Job, nat>, w: nat, k': Worker)
    requires HoldsOwn(k, owner, w) && k.pc.Uncount? && k' == k.(pc := Top)
    ensures k.pc.j in owner && HoldsOwn(k', owner - {k.pc.j}, w)
  {
    assert k.pc.j in Hand(k.pc);
  }

  /** What the moving worker holds: it pops a job, is done with one, or keeps what it has. */
  lemma WorkerHand(k: Worker, more: bool, k': Worker)
    requires CanRun(k.pc) && k' == Moved(k, more)
    ensures if k.pc.Pop? && k.stack != [] then k' == k.(stack := k.stack[1..], pc := Execute(k.stack[0]))
            else if k.pc.Uncount? then k' == k.(pc := Top)
            else k'.stack == k.stack && Hand(k'.pc) == Hand(k.pc)
  {
  }

  /** The one that moves. */
  lemma MoverKeepsHolds(s: State, w: nat, more: bool, s': State, owner: map<Job, nat>)
    requires w < |s.workers| && WorkerActs(s, w, more, s') && HoldsOwn(s.workers[w], owner, w)
    ensures |s'.workers| == |s.workers| && HoldsOwn(s'.workers[w], OwnerAfter(s, WorkerRuns(w, more), owner), w)
  {
    var k, k' := s.workers[w], s'.workers[w];
    OthersLeft(s, w, more, s');
    WorkerHand(k, more, k');
    if k.pc.Pop? && k.stack != [] {
      PopKeepsHolds(k, owner, w);
    } else if k.pc.Uncount? {
      UncountKeepsHolds(k, owner, w, k');
    } else {
      SameHolds(k, owner, w, k');
    }
  }

  lemma WorkerKeepsHolds(s: State, w: nat, more: bool, s': State, owner: map<Job, nat>, v: nat)
    requires w < |s.workers| && WorkerActs(s, w, more, s') && v < |s.workers|
    requires HoldsOwn(s.workers[w], owner, w) && HoldsOwn(s.workers[v], owner, v)
    ensures |s'.workers| == |s.workers| && HoldsOwn(s'.workers[v], OwnerAfter(s, WorkerRuns(w, more), owner), v)
  {
    if v == w {
      MoverKeepsHolds(s, w, more, s', owner);
    } else {
      assert s'.workers[v] == s.workers[v];
      if s.workers[w].pc.Uncount? { assert s.workers[w].pc.j in Hand(s.workers[w].pc); }
    }
  }

  lemma WorkerKeepsHands(s: State, w: nat, more: bool, s': State, owner: map<Job, nat>, v: nat)
    requires w < |s.workers| && WorkerActs(s, w, more, s') && v < |s.workers|
    requires HoldsOwn(s.workers[w], owner, w) && HandOk(s.workers[w], s.ran, s.completed)
    requires HoldsOwn(s.workers[v], owner, v) && HandOk(s.workers[v], s.ran, s.completed)
    ensures |s'.workers| == |s.workers| && HandOk(s'.workers[v], s'.ran, s'.completed)
  {
    var k := s.workers[w];
    if k.pc.Complete? {
      assert k.pc.j in Hand(k.pc) && owner[k.pc.j] == w;
    }
    if v == w && k.pc.Pop? && k.stack != [] {
      assert k.stack[0] in k.stack;
      assert forall j :: j in k.stack[1..] ==> j in k.stack;
    }
  }

  lemma WorkerKeepsHistory(s: State, w: nat, more: bool, s': State, owner: map<Job, nat>)
    requires w < |s.workers| && WorkerActs(s, w, more, s') && History(s, owner)
    requires HoldsOwn(s.workers[w], owner, w) && HandOk(s.workers[w], s.ran, s.completed)
    ensures History(s', OwnerAfter(s, WorkerRuns(w, more), owner))
  {
    var pc := s.workers[w].pc;
    if pc.Complete? || pc.Uncount? {
      assert pc.j in Hand(pc);
    }
  }

  lemma WorkerKeepsHeld(s: State, w: nat, more: bool, s': State, owner: map<Job, nat>)
    requires Held(s, owner) && w < |s.workers| && WorkerActs(s, w, more, s')
    ensures Held(s', OwnerAfter(s, WorkerRuns(w, more), owner))
  {
    var owner' := OwnerAfter(s, WorkerRuns(w, more), owner);
    forall v | 0 <= v < |s.workers|
      ensures |s'.workers| == |s.workers| && HoldsOwn(s'.workers[v], owner', v)
      ensures HandOk(s'.workers[v], s'.ran, s'.completed)
    {
      WorkerKeepsHolds(s, w, more, s', owner, v);
      WorkerKeepsHands(s, w, more, s', owner, v);
    }
    WorkerKeepsHolds(s, w, more, s', owner, w);
  }

  /** A worker's step leaves the clients as they are or wakes some, and subtracts one
      exactly when a job is done with. */
  lemma WorkerOutside(s: State, w: nat, more: bool, s': State)
    requires w < |s.workers| && WorkerActs(s, w, more, s')
    ensures s'.clients == s.clients || s'.clients == WakeClients(s.clients)
    ensures s'.accepted == s.accepted
    ensures s'.counter == s.counter - if s.workers[w].pc.Uncount? then 1 else 0
  {
  }

  lemma WorkerKeepsCount(s: State, w: nat, more: bool, s': State, owner: map<Job, nat>)
    requires w < |s.workers| && WorkerActs(s, w, more, s') && HoldsOwn(s.workers[w], owner, w)
    requires s.counter == |owner| - Uncounted(s.clients) && OffersOk(s)
    ensures s'.counter == |OwnerAfter(s, WorkerRuns(w, more), owner)| - Uncounted(s'.clients) && OffersOk(s')
  {
    WorkerOutside(s, w, more, s');
    UncountedWake(s.clients);
    var pc := s.workers[w].pc;
    if pc.Uncount? {
      assert pc.j in Hand(pc);
      LessOne(owner, pc.j);
    }
    assert forall c :: 0 <= c < |s.clients| ==> Offered(s'.clients[c]) == Offered(s.clients[c]);
  }

  lemma WorkerKeepsJobs(s: State, w: nat, more: bool, s': State, owner: map<Job, nat>)
    requires JobsInv(s, owner) && w < |s.workers| && WorkerActs(s, w, more, s') && Inv(s')
    ensures JobsInv(s', OwnerAfter(s, WorkerRuns(w, more), owner))
  {
    WorkerKeepsHeld(s, w, more, s', owner);
    WorkerKeepsHistory(s, w, more, s', owner);
    WorkerKeepsCount(s, w, more, s', owner);
  }

  /** What a client's step does to worker v: a push, a set, a stop, a notify or nothing. */
  lemma ClientOnWorker(s: State, c: nat, s': State, v: nat)
    requires c < |s.clients| && ClientActs(s, c, s') && v < |s.workers|
    ensures |s'.workers| == |s.workers| && s'.ran == s.ran && s'.answers == s.answers && s'.completed == s.completed
    ensures Hand(s'.workers[v].pc) == Hand(s.workers[v].pc)
    ensures s'.workers[v].pc == s.workers[v].pc || (s.workers[v].pc.Wait? && s'.workers[v].pc.Wait?)
    ensures var p := s.clients[c];
      s'.workers[v].stack == if p.Push? && p.i == v then [p.j] + s.workers[v].stack else s.workers[v].stack
  {
  }

  lemma ClientKeepsHeld(s: State, c: nat, s': State, owner: map<Job, nat>)
    requires c < |s.clients| && ClientActs(s, c, s') && |s.workers| > 0
    requires Held(s, owner) && History(s, owner) && OffersOk(s)
    ensures Held(s', OwnerAfter(s, ClientRuns(c), owner))
  {
    var p, owner' := s.clients[c], OwnerAfter(s, ClientRuns(c), owner);
    ClientOnWorker(s, c, s', 0);
    if p.Push? { assert p.j in Offered(p); }
    forall v | 0 <= v < |s'.workers|
      ensures HoldsOwn(s'.workers[v], owner', v) && HandOk(s'.workers[v], s'.ran, s'.completed)
    {
      ClientOnWorker(s, c, s', v);
      assert HoldsOwn(s.workers[v], owner, v) && HandOk(s.workers[v], s.ran, s.completed);
      if p.Push? && p.i == v {
        PushKeepsHolds(s.workers[v], owner, v, p.j);
      }
    }
  }

  /** A client's step moves that client only; a push accepts its job, and the counter
      goes up at the end of a post. */
  lemma ClientOutside(s: State, c: nat, s': State)
    requires c < |s.clients| && ClientActs(s, c, s')
    ensures |s'.clients| == |s.clients| && s'.clients == s.clients[c := s'.clients[c]]
    ensures |s'.workers| == |s.workers| && s'.ran == s.ran && s'.answers == s.answers && s'.completed == s.completed
    ensures var p, p' := s.clients[c], s'.clients[c];
      && s'.accepted == (if p.Push? then s.accepted + {p.j} else s.accepted)
      && s'.counter == s.counter + (if p.Count? then 1 else 0)
      && Offered(p') == (if p.Push? || (p.Offer? && !p'.Push?) then {} else Offered(p))
      && One(p') == One(p) + (if p.Push? then 1 else 0) - (if p.Count? then 1 else 0)
  {
  }

  lemma ClientKeepsJobs(s: State, c: nat, s': State, owner: map<Job, nat>)
    requires JobsInv(s, owner) && c < |s.clients| && ClientActs(s, c, s') && Inv(s')
    ensures JobsInv(s', OwnerAfter(s, ClientRuns(c), owner))
  {
    var p := s.clients[c];
    ClientKeepsHeld(s, c, s', owner);
    ClientOutside(s, c, s');
    ClientKeepsOffers(s, c, s');
    UncountedUpdate(s.clients, c, s'.clients[c]);
    if p.Push? {
      assert p.j in Offered(p);
      OneMore(owner, p.j, p.i);
      assert ClientOk(s, c);
    }
  }

  lemma ClientKeepsOffers(s: State, c: nat, s': State)
    requires OffersOk(s) && c < |s.clients| && ClientActs(s, c, s')
    ensures OffersOk(s')
  {
    ClientOutside(s, c, s');
    var p := s.clients[c];
    if p.Push? { assert p.j in Offered(p); }
  }

  lemma BeginKeepsOffers(s: State, step: Step, s': State)
    requires OffersOk(s) && Next(s, step, s')
    requires step.Post? || step.StopAll? || step.AwaitIdle? || step.ClientWakes?
    ensures OffersOk(s')
  {
    if step.Post? {
      assert Unposted(s, step.j) && Offered(s'.clients[step.c]) == {step.j};
    } else {
      assert Offered(s'.clients[step.c]) == {};
    }
  }

  lemma BeginKeepsJobs(s: State, step: Step, s': State, owner: map<Job, nat>)
    requires JobsInv(s, owner) && Next(s, step, s') && Inv(s')
    requires step.Post? || step.StopAll? || step.AwaitIdle? || step.ClientWakes?
    ensures JobsInv(s', owner)
  {
    var c, p := step.c, s'.clients[step.c];
    assert s' == s.(clients := s.clients[c := p]) && One(p) == One(s.clients[c]);
    UncountedUpdate(s.clients, c, p);
    BeginKeepsOffers(s, step, s');
  }

  lemma WakeKeepsJobs(s: State, w: nat, s': State, owner: map<Job, nat>)
    requires JobsInv(s, owner) && Next(s, WorkerWakes(w), s') && Inv(s')
    ensures JobsInv(s', owner)
  {
    forall v | 0 <= v < |s'.workers|
      ensures HoldsOwn(s'.workers[v], owner, v) && HandOk(s'.workers[v], s'.ran, s'.completed)
    {
      assert HoldsOwn(s.workers[v], owner, v) && HandOk(s.workers[v], s.ran, s.completed);
    }
  }

  /** Every step keeps: each accepted job not yet subtracted has one owner, and the
      counter is the number of those jobs less the posts still to be counted. */
  lemma StepKeepsJobs(s: State, step: Step, s': State, owner: map<Job, nat>)
    requires JobsInv(s, owner) && Next(s, step, s')
    ensures JobsInv(s', OwnerAfter(s, step, owner))
  {
    StepKeepsInv(s, step, s');
    match step
    case WorkerRuns(w, more) => WorkerKeepsJobs(s, w, more, s', owner);
    case ClientRuns(c) => ClientKeepsJobs(s, c, s', owner);
    case WorkerWakes(w) => WakeKeepsJobs(s, w, s', owner);
    case _ => BeginKeepsJobs(s, step, s', owner);
  }

  lemma JobsStep(s: State, step: Step, s': State, owner: map<Job, nat>) returns (owner': map<Job, nat>)
    requires JobsInv(s, owner) && Next(s, step, s')
    ensures JobsInv(s', owner')
  {
    owner' := OwnerAfter(s, step, owner);
    StepKeepsJobs(s, step, s', owner);
  }

  lemma InitJobs(s: State)
    requires Init(s)
    ensures JobsInv(s, map[])
  {
    NoneUncounted(s.clients);
  }

  lemma {:induction false} RunKeepsJobs(states: seq<State>, steps: seq<Step>, n: nat) returns (owner: map<Job, nat>)
    requires n <= |steps| < |states| && Run(states, steps, n)
    ensures JobsInv(states[n], owner)
  {
    if n == 0 {
      InitJobs(states[0]);
      owner := map[];
    } else {
      var before := RunKeepsJobs(states, steps, n - 1);
      owner := JobsStep(states[n - 1], steps[n - 1], states[n], before);
    }
  }

  /** No worker holds a job, on its stack or in hand. */
  ghost predicate AllDone(s: State) {
    forall w :: 0 <= w < |s.workers| ==> s.workers[w].stack == [] && Hand(s.workers[w].pc) == {}
  }

  lemma SomeElement(s: seq<Job>)
    ensures s == [] || exists j :: j in s
  {
    if s != [] { assert s[0] in s; }
  }

  lemma HoldsNothing(k: Worker, w: nat)
    requires HoldsOwn(k, map[], w)
    ensures k.stack == [] && Hand(k.pc) == {}
  {
    SomeElement(k.stack);
  }

  lemma DoneIffNoneOwned(s: State, owner: map<Job, nat>)
    requires JobsInv(s, owner)
    ensures AllDone(s) <==> owner == map[]
  {
    if owner == map[] {
      forall w | 0 <= w < |s.workers| ensures s.workers[w].stack == [] && Hand(s.workers[w].pc) == {} {
        HoldsNothing(s.workers[w], w);
      }
    } else {
      var j :| j in owner;
      assert HoldsOwn(s.workers[owner[j]], owner, owner[j]);
    }
  }

  /** What a zero counter means to a client that looks at it: all accepted jobs have run
      and completed if and only if no client is between its push and its increment. */
  lemma ZeroMeansDoneIffCounted(states: seq<State>, steps: seq<Step>, n: nat)
    requires n <= |steps| < |states| && Run(states, steps, n) && states[n].counter == 0
    ensures AllDone(states[n]) <==> forall c :: 0 <= c < |states[n].clients| ==> !MidPost(states[n].clients[c])
    ensures AllDone(states[n]) ==>
              states[n].accepted <= states[n].completed && HaveRun(states[n].completed, states[n].ran)
  {
    var owner := RunKeepsJobs(states, steps, n);
    DoneIffNoneOwned(states[n], owner);
    NoneUncounted(states[n].clients);
    assert |owner| == 0 <==> owner == map[];
  }
}
