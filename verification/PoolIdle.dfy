/** Waiting for the pool to be idle. A policy says which operations may overlap a wait:
    posts, waits of other clients, and whether the pool may be stopped. When none may,
    no wait can hang; when no post may, every wait is honest. */
module PoolIdle {
  import opened ThreadPool
  import opened PoolJobs

  datatype Policy = Policy(posts: bool, waits: bool, stops: bool)

  /** While a client waits for idle, every other client is outside its operations, and
      nobody ever stops the pool. */
  const QUIET: Policy := Policy(false, false, false)

  datatype Op = NoOp | Posting | Waiting | Stopping

  function OpOf(p: ClientPC): Op {
    match p
    case Outside => NoOp
    case StopStore(_) => Stopping
    case StopSet(_) => Stopping
    case StopNotify(_) => Stopping
    case Join(_) => Stopping
    case Load => Waiting
    case Idle(_) => Waiting
    case _ => Posting
  }

  predicate Allows(p: Policy, o: Op) {
    match o
    case NoOp => true
    case Posting => p.posts
    case Waiting => p.waits
    case Stopping => p.stops
  }

  /** Whatever overlaps a wait is allowed to. */
  ghost predicate Overlaps(p: Policy, clients: seq<ClientPC>) {
    forall c, d :: 0 <= c < |clients| && 0 <= d < |clients| && c != d && OpOf(clients[c]) == Waiting ==>
      Allows(p, OpOf(clients[d]))
  }

  ghost predicate Permitted(p: Policy, step: Step, s': State) {
    (step.StopAll? ==> p.stops) && Overlaps(p, s'.clients)
  }

  ghost predicate Allowed(p: Policy, s: State, step: Step, s': State) {
    Next(s, step, s') && Permitted(p, step, s')
  }

  /** A run whose first n steps keep to the policy. */
  ghost predicate Follows(p: Policy, states: seq<State>, steps: seq<Step>, n: nat)
    requires n <= |steps| < |states|
  {
    Init(states[0]) && forall m :: 0 <= m < n ==> Allowed(p, states[m], steps[m], states[m + 1])
  }

  lemma {:induction false} FollowsIsRun(p: Policy, states: seq<State>, steps: seq<Step>, n: nat)
    requires n <= |steps| < |states| && Follows(p, states, steps, n)
    ensures Run(states, steps, n) && Overlaps(p, states[n].clients)
  {
    if n > 0 {
      FollowsIsRun(p, states, steps, n - 1);
    }
  }

  /** Some run that keeps to the policy leads to s. */
  ghost predicate Reached(p: Policy, s: State) {
    exists states, steps :: Leads(p, states, steps, s)
  }

  ghost predicate Leads(p: Policy, states: seq<State>, steps: seq<Step>, s: State) {
    |states| == |steps| + 1 && Follows(p, states, steps, |steps|) && states[|steps|] == s
  }

  // --------------------------------------------------------------- invariants

  /** Some worker will set the idle flag unless it finds more work. */
  ghost predicate Owes(workers: seq<Worker>) {
    exists w :: 0 <= w < |workers| && Unsettled(workers[w].pc)
  }

  predicate Unsettled(pc: WorkerPC) {
    pc.Top? || pc.Pop? || pc.Recheck? || pc.SetIdle?
  }

  /** Nobody stops the pool. */
  ghost predicate NoStop(s: State) {
    && (forall w :: 0 <= w < |s.workers| ==> KeepsGoing(s.workers[w]))
    && (forall c :: 0 <= c < |s.clients| ==> OpOf(s.clients[c]) != Stopping)
  }

  predicate KeepsGoing(k: Worker) {
    !k.stopped && !k.pc.ExitSet? && !k.pc.ExitNotify? && !k.pc.Exited?
  }

  /** In wait_for_idle, past the look at the counter and not yet through the wait. */
  predicate Waits(p: ClientPC) {
    p.Idle? && p.at != Clear
  }

  /** A client that waits while the flag is clear and no job is left is owed a set(). */
  ghost predicate WaitOk(s: State, owner: map<Job, nat>) {
    forall c :: 0 <= c < |s.clients| && Waits(s.clients[c]) && !s.idle && |owner| == 0 ==> Owes(s.workers)
  }

  ghost predicate QuietInv(s: State, owner: map<Job, nat>) {
    JobsInv(s, owner) && NoStop(s) && Overlaps(QUIET, s.clients) && WaitOk(s, owner)
  }

  /** What a step of worker w leaves alone and changes. One that leaves the owing
      states has taken a job or set the idle flag; one that subtracts owes. */
  ghost predicate WorkerMoved(s: State, w: nat, s': State)
    requires w < |s.workers|
  {
    && |s'.workers| == |s.workers| && (forall v :: 0 <= v < |s.workers| && v != w ==> s'.workers[v] == s.workers[v])
    && (s.idle ==> s'.idle)
    && (Unsettled(s.workers[w].pc) ==>
          Unsettled(s'.workers[w].pc) || s'.idle || (s.workers[w].pc.Pop? && s.workers[w].stack != []))
    && (s.workers[w].pc.Uncount? ==> Unsettled(s'.workers[w].pc))
  }

  lemma WorkerMoves(s: State, w: nat, more: bool, s': State)
    requires w < |s.workers| && WorkerActs(s, w, more, s') && KeepsGoing(s.workers[w])
    ensures WorkerMoved(s, w, s') && KeepsGoing(s'.workers[w])
  {
  }

  lemma OwesDespite(s: State, w: nat, s': State)
    requires Owes(s.workers) && w < |s.workers| == |s'.workers|
    requires forall v :: 0 <= v < |s.workers| && v != w ==> s'.workers[v] == s.workers[v]
    requires Unsettled(s.workers[w].pc) ==> Unsettled(s'.workers[w].pc)
    ensures Owes(s'.workers)
  {
    var v :| 0 <= v < |s.workers| && Unsettled(s.workers[v].pc);
    assert Unsettled(s'.workers[v].pc);
  }

  lemma WorkerKeepsWaits(s: State, w: nat, s': State, owner: map<Job, nat>, owner': map<Job, nat>)
    requires w < |s.workers| && WorkerMoved(s, w, s') && WaitOk(s, owner) && HoldsOwn(s.workers[w], owner, w)
    requires s'.clients == s.clients || s'.clients == WakeClients(s.clients)
    requires owner' == if s.workers[w].pc.Uncount? then owner - {s.workers[w].pc.j} else owner
    ensures WaitOk(s', owner')
  {
    var k := s.workers[w];
    SomeElement(k.stack);
    forall c | 0 <= c < |s'.clients| && Waits(s'.clients[c]) && !s'.idle && |owner'| == 0 ensures Owes(s'.workers) {
      assert Waits(s.clients[c]);
      if k.pc.Uncount? {
        assert Unsettled(s'.workers[w].pc);
      } else {
        OwesDespite(s, w, s');
      }
    }
  }

  lemma WorkerStopsNone(s: State, w: nat, more: bool, s': State)
    requires w < |s.workers| && WorkerActs(s, w, more, s') && NoStop(s)
    ensures NoStop(s')
  {
    WorkerMoves(s, w, more, s');
    WorkerOutside(s, w, more, s');
    forall c | 0 <= c < |s'.clients| ensures OpOf(s'.clients[c]) != Stopping {
      assert OpOf(s.clients[c]) != Stopping;
    }
  }

  lemma WorkerKeepsQuiet(s: State, w: nat, more: bool, s': State, owner: map<Job, nat>)
    requires QuietInv(s, owner) && w < |s.workers| && WorkerActs(s, w, more, s')
    requires JobsInv(s', OwnerAfter(s, WorkerRuns(w, more), owner)) && Overlaps(QUIET, s'.clients)
    ensures QuietInv(s', OwnerAfter(s, WorkerRuns(w, more), owner))
  {
    WorkerMoves(s, w, more, s');
    WorkerOutside(s, w, more, s');
    WorkerStopsNone(s, w, more, s');
    WorkerKeepsWaits(s, w, s', owner, OwnerAfter(s, WorkerRuns(w, more), owner));
  }

  /** While a client is in wait_for_idle nobody else is in a post. */
  lemma NobodyPosts(p: Policy, clients: seq<ClientPC>, c: nat)
    requires !p.posts && Overlaps(p, clients) && c < |clients| && OpOf(clients[c]) == Waiting
    ensures Uncounted(clients) == 0 && forall d :: 0 <= d < |clients| ==> !MidPost(clients[d])
  {
    forall d | 0 <= d < |clients| ensures !MidPost(clients[d]) {
      if d != c { assert Allows(p, OpOf(clients[d])); }
    }
    NoneUncounted(clients);
  }

  /** A client comes to wait only when it read a counter that is not zero, and then, as
      nobody is in a post, a job is left. */
  lemma ClientKeepsWaits(s: State, c: nat, s': State, owner: map<Job, nat>)
    requires c < |s.clients| && ClientActs(s, c, s') && WaitOk(s, owner) && Overlaps(QUIET, s.clients)
    requires s.counter == |owner| - Uncounted(s.clients)
    ensures WaitOk(s', OwnerAfter(s, ClientRuns(c), owner))
  {
    ClientOutside(s, c, s');
    forall d | 0 <= d < |s'.clients| && Waits(s'.clients[d]) && !s'.idle && |OwnerAfter(s, ClientRuns(c), owner)| == 0
      ensures Owes(s'.workers)
    {
      OnlyWaiterActs(s, c, s', d);
      assert s'.workers == s.workers && s'.idle == s.idle;
      if s.clients[c].Load? {
        NobodyPosts(QUIET, s.clients, c);
      }
    }
  }

  /** A client that acts while another waits is the one that waits. */
  lemma OnlyWaiterActs(s: State, c: nat, s': State, d: nat)
    requires c < |s.clients| && ClientActs(s, c, s') && Overlaps(QUIET, s.clients)
    requires d < |s'.clients| == |s.clients| && s'.clients == s.clients[c := s'.clients[c]] && Waits(s'.clients[d])
    ensures d == c && (s.clients[c].Load? || Waits(s.clients[c]))
  {
    assert s.clients[c] != Outside;
    assert forall e :: 0 <= e < |s.clients| && e != c && OpOf(s.clients[e]) == Waiting ==> OpOf(s.clients[c]) == NoOp;
  }

  lemma ClientStopsNone(s: State, c: nat, s': State)
    requires c < |s.clients| && ClientActs(s, c, s') && NoStop(s)
    ensures NoStop(s')
  {
    ClientOutside(s, c, s');
    assert OpOf(s.clients[c]) != Stopping;
    forall w | 0 <= w < |s'.workers| ensures KeepsGoing(s'.workers[w]) {
      assert KeepsGoing(s.workers[w]);
      ClientOnWorker(s, c, s', w);
    }
  }

  lemma ClientKeepsQuiet(s: State, c: nat, s': State, owner: map<Job, nat>)
    requires QuietInv(s, owner) && c < |s.clients| && ClientActs(s, c, s')
    requires JobsInv(s', OwnerAfter(s, ClientRuns(c), owner)) && Overlaps(QUIET, s'.clients)
    ensures QuietInv(s', OwnerAfter(s, ClientRuns(c), owner))
  {
    ClientStopsNone(s, c, s');
    ClientKeepsWaits(s, c, s', owner);
  }

  lemma SleeperKeepsQuiet(s: State, w: nat, s': State, owner: map<Job, nat>)
    requires QuietInv(s, owner) && Next(s, WorkerWakes(w), s') && JobsInv(s', owner)
    ensures QuietInv(s', owner)
  {
    if Owes(s.workers) {
      var v :| 0 <= v < |s.workers| && Unsettled(s.workers[v].pc);
      assert s'.workers[v] == s.workers[v];
    }
  }

  lemma BeginStopsNone(s: State, step: Step, s': State)
    requires NoStop(s) && Next(s, step, s') && (step.Post? || step.AwaitIdle? || step.ClientWakes?)
    ensures NoStop(s')
  {
    assert s'.workers == s.workers;
  }

  lemma BeginKeepsWaits(s: State, step: Step, s': State, owner: map<Job, nat>)
    requires WaitOk(s, owner) && Next(s, step, s') && (step.Post? || step.AwaitIdle? || step.ClientWakes?)
    ensures WaitOk(s', owner)
  {
    assert s'.workers == s.workers && s'.idle == s.idle;
    forall d | 0 <= d < |s'.clients| && Waits(s'.clients[d]) ensures Waits(s.clients[d]) {
    }
  }

  lemma BeginKeepsQuiet(s: State, step: Step, s': State, owner: map<Job, nat>)
    requires QuietInv(s, owner) && Next(s, step, s') && JobsInv(s', owner) && Overlaps(QUIET, s'.clients)
    requires step.Post? || step.AwaitIdle? || step.ClientWakes?
    ensures QuietInv(s', owner)
  {
    BeginStopsNone(s, step, s');
    BeginKeepsWaits(s, step, s', owner);
  }

  lemma StepKeepsQuiet(s: State, step: Step, s': State, owner: map<Job, nat>)
    requires QuietInv(s, owner) && Next(s, step, s') && Permitted(QUIET, step, s')
    ensures QuietInv(s', OwnerAfter(s, step, owner))
  {
    StepKeepsJobs(s, step, s', owner);
    match step
    case WorkerRuns(w, more) => WorkerKeepsQuiet(s, w, more, s', owner);
    case ClientRuns(c) => ClientKeepsQuiet(s, c, s', owner);
    case WorkerWakes(w) => SleeperKeepsQuiet(s, w, s', owner);
    case _ => BeginKeepsQuiet(s, step, s', owner);
  }

  /** What holds at the start and is kept by every step the policy permits. */
  ghost predicate Kept(p: Policy, r: State -> bool) {
    && (forall s {:trigger Init(s)} :: Init(s) ==> r(s))
    && (forall s, step, s' {:trigger Next(s, step, s')} ::
          r(s) && Next(s, step, s') && Permitted(p, step, s') ==> r(s'))
  }

  lemma {:induction false} RunKeeps(p: Policy, r: State -> bool, states: seq<State>, steps: seq<Step>, n: nat)
    requires n <= |steps| < |states| && Kept(p, r) && Follows(p, states, steps, n)
    ensures r(states[n])
    decreases n
  {
    if n > 0 {
      RunKeeps(p, r, states, steps, n - 1);
    }
  }

  ghost predicate Quiet(s: State) {
    exists owner :: QuietInv(s, owner)
  }

  lemma QuietStep(s: State, step: Step, s': State)
    requires Quiet(s) && Next(s, step, s') && Permitted(QUIET, step, s')
    ensures Quiet(s')
  {
    var owner :| QuietInv(s, owner);
    StepKeepsQuiet(s, step, s', owner);
  }

  lemma InitQuiet(s: State)
    requires Init(s)
    ensures Quiet(s)
  {
    InitJobs(s);
    assert QuietInv(s, map[]);
  }

  lemma QuietKept()
    ensures Kept(QUIET, (s: State) => Quiet(s))
  {
    forall s | Init(s) ensures Quiet(s) {
      InitQuiet(s);
    }
    forall s, step, s' | Quiet(s) && Next(s, step, s') && Permitted(QUIET, step, s') ensures Quiet(s') {
      QuietStep(s, step, s');
    }
  }

  lemma QuietReached(s: State) returns (owner: map<Job, nat>)
    requires Reached(QUIET, s)
    ensures QuietInv(s, owner)
  {
    var states, steps :| Leads(QUIET, states, steps, s);
    QuietKept();
    RunKeeps(QUIET, (t: State) => Quiet(t), states, steps, |steps|);
    assert Quiet(s);
    owner :| QuietInv(s, owner);
  }

  // -------------------------------------------------------------- consequences

  /** wait_for_idle is honest when no post overlaps it, whatever else does: when the
      look at the counter lets a client go, every accepted job has run and completed,
      and no worker holds one any more. */
  lemma IdleMeansDone(p: Policy, s: State, c: nat)
    requires Reached(p, s) && !p.posts && c < |s.clients| && s.clients[c] == Load && s.counter == 0
    ensures s.accepted <= s.completed && HaveRun(s.completed, s.ran) && AllDone(s)
  {
    var states, steps :| Leads(p, states, steps, s);
    FollowsIsRun(p, states, steps, |steps|);
    NobodyPosts(p, s.clients, c);
    ZeroMeansDoneIffCounted(states, steps, |steps|);
  }

  /** When nothing overlaps, a client blocked in wait_for_idle with nothing left to count
      is owed a set() of the idle flag, or a notify by a worker that has already set it. */
  lemma BlockedClientIsOwed(s: State, c: nat)
    requires Reached(QUIET, s) && c < |s.clients| && s.clients[c] == Idle(Asleep) && s.counter == 0
    ensures if s.idle then Announcing(s.workers) else Owes(s.workers)
  {
    var owner := QuietReached(s);
    NobodyPosts(QUIET, s.clients, c);
    assert ClientOk(s, c) && Waits(s.clients[c]);
  }

  /** And no deadlock: while it is blocked, some worker can take a step. */
  lemma BlockedClientHasARunner(s: State, c: nat) returns (w: nat)
    requires Reached(QUIET, s) && c < |s.clients| && s.clients[c] == Idle(Asleep)
    ensures w < |s.workers| && CanRun(s.workers[w].pc)
  {
    if s.counter == 0 {
      BlockedClientIsOwed(s, c);
      w := RunnerWhenOwed(s);
    } else {
      var owner := QuietReached(s);
      w := RunnerWhenBusy(s, owner, c);
    }
  }

  lemma RunnerWhenOwed(s: State) returns (w: nat)
    requires Announcing(s.workers) || Owes(s.workers)
    ensures w < |s.workers| && CanRun(s.workers[w].pc)
  {
    if Announcing(s.workers) {
      w :| 0 <= w < |s.workers| && (s.workers[w].pc.NotifyIdle? || s.workers[w].pc.ExitNotify?);
    } else {
      w :| 0 <= w < |s.workers| && Unsettled(s.workers[w].pc);
    }
  }

  /** The owner of an uncounted job: were it asleep, its poster would have to be awake. */
  lemma RunnerWhenBusy(s: State, owner: map<Job, nat>, c: nat) returns (w: nat)
    requires QuietInv(s, owner) && c < |s.clients| && s.clients[c] == Idle(Asleep) && s.counter != 0
    ensures w < |s.workers| && CanRun(s.workers[w].pc)
  {
    NobodyPosts(QUIET, s.clients, c);
    var j :| j in owner;
    w := owner[j];
    assert HoldsOwn(s.workers[w], owner, w) && KeepsGoing(s.workers[w]);
    assert j in s.workers[w].stack || j in Hand(s.workers[w].pc);
    assert !Some(s.clients, SetWork(w)) && !Some(s.clients, NotifyWork(w)) by {
      assert MidPost(SetWork(w)) && MidPost(NotifyWork(w));
    }
    assert !Some(s.clients, StopNotify(w)) by {
      assert OpOf(StopNotify(w)) == Stopping;
    }
    assert Told(s.workers[w], s.clients, w);
  }
}
