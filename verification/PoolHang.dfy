/** When can wait_for_idle hang, and when is it honest? Runs that hang, one for each kind
    of operation that overlaps, and the exact answers. */
module PoolHang {
  import opened ThreadPool
  import opened PoolJobs
  import opened PoolIdle

  /** A thread other than a blocked one has a step of its own to take. */
  ghost predicate CanGoOn(s: State) {
    || (exists w :: 0 <= w < |s.workers| && CanRun(s.workers[w].pc))
    || (exists c :: 0 <= c < |s.clients| && ClientCanRun(s, c))
  }

  ghost predicate ClientCanRun(s: State, c: nat)
    requires c < |s.clients|
  {
    exists s' :: ClientActs(s, c, s')
  }

  /** A client waits for idle and no thread has a step to take. */
  ghost predicate Hung(s: State) {
    (exists c :: 0 <= c < |s.clients| && s.clients[c] == Idle(Asleep)) && !CanGoOn(s)
  }

  /** A hung state only changes by spurious wakeups, or when a client starts a new
      operation. */
  lemma HungHasNoRunner(s: State, step: Step, s': State)
    requires Hung(s) && Next(s, step, s')
    ensures step.WorkerWakes? || step.ClientWakes? || step.Post? || step.StopAll? || step.AwaitIdle?
  {
    if step.ClientRuns? {
      assert ClientCanRun(s, step.c);
    }
  }

  /** One worker asleep or gone, the first client asleep in its wait, the second, if there
      is one, outside its operations. */
  lemma HungIs(s: State)
    requires |s.workers| == 1 && !CanRun(s.workers[0].pc)
    requires s.clients == [Idle(Asleep)] || s.clients == [Idle(Asleep), Outside]
    ensures Hung(s)
  {
    assert s.clients[0] == Idle(Asleep);
    forall c | 0 <= c < |s.clients| ensures !ClientCanRun(s, c) {
      assert s.clients[c] == Idle(Asleep) || s.clients[c] == Outside;
    }
  }

  // ------------------------------------------------------------ reaching states

  lemma LeadsOn(p: Policy, states: seq<State>, steps: seq<Step>, s: State, step: Step, s': State)
    requires Leads(p, states, steps, s) && Next(s, step, s') && Permitted(p, step, s')
    ensures Leads(p, states + [s'], steps + [step], s')
  {
    var all, more := states + [s'], steps + [step];
    forall m | 0 <= m < |more| ensures Allowed(p, all[m], more[m], all[m + 1]) {
      if m < |steps| { assert Allowed(p, states[m], steps[m], states[m + 1]); }
    }
  }

  lemma OneStepMore(p: Policy, s: State, step: Step, s': State)
    requires Reached(p, s) && Next(s, step, s') && Permitted(p, step, s')
    ensures Reached(p, s')
  {
    var states, steps :| Leads(p, states, steps, s);
    LeadsOn(p, states, steps, s, step, s');
  }

  lemma ReachedIsKept(p: Policy)
    ensures Kept(p, (s: State) => Reached(p, s))
  {
    var r := (s: State) => Reached(p, s);
    forall s | Init(s) ensures r(s) {
      var states: seq<State>, steps: seq<Step> := [s], [];
      assert Leads(p, states, steps, s);
    }
    forall s, step, s' | r(s) && Next(s, step, s') && Permitted(p, step, s') ensures r(s') {
      OneStepMore(p, s, step, s');
    }
  }

  lemma Go(p: Policy, r: State -> bool, s: State, step: Step, s': State)
    requires Kept(p, r) && r(s) && Next(s, step, s') && Permitted(p, step, s')
    ensures r(s')
  {
  }

  /** The step of the only worker. */
  lemma GoWorker(p: Policy, r: State -> bool, s: State) returns (s': State)
    requires Kept(p, r) && r(s) && |s.workers| == 1 && CanRun(s.workers[0].pc) && Overlaps(p, s.clients)
    ensures s' == WorkerResult(s, 0, false) && r(s') && Overlaps(p, s'.clients)
  {
    s' := WorkerResult(s, 0, false);
    assert s'.clients == s.clients || s'.clients == WakeClients(s.clients);
    Go(p, r, s, WorkerRuns(0, false), s');
  }

  lemma GoClient(p: Policy, r: State -> bool, s: State, c: nat, s': State)
    requires Kept(p, r) && r(s) && c < |s.clients| && ClientActs(s, c, s') && Overlaps(p, s'.clients)
    ensures r(s')
  {
    Go(p, r, s, ClientRuns(c), s');
  }

  lemma NoSleepers(clients: seq<ClientPC>)
    requires forall c :: 0 <= c < |clients| ==> clients[c] != Idle(Asleep)
    ensures WakeClients(clients) == clients
  {
  }

  /** At the start: one worker, and these clients. */
  lemma Begin(p: Policy, r: State -> bool, clients: seq<ClientPC>) returns (s: State)
    requires Kept(p, r) && forall c :: 0 <= c < |clients| ==> clients[c] == Outside
    ensures r(s) && s == State([Worker([], false, false, Top)], clients, 0, 0, false, {}, multiset{}, multiset{}, {})
  {
    s := State([Worker([], false, false, Top)], clients, 0, 0, false, {}, multiset{}, multiset{}, {});
    assert Init(s);
  }

  /** Client c finds the worker for its job. */
  lemma Offers(p: Policy, r: State -> bool, s0: State, c: nat, j: Job) returns (s: State)
    requires Kept(p, r) && r(s0) && c < |s0.clients| && forall d :: 0 <= d < |s0.clients| ==> s0.clients[d] == Outside
    requires |s0.workers| == 1 && !s0.workers[0].stopped && s0.next == 0 && s0.accepted == {}
    ensures r(s) && s == s0.(clients := s0.clients[c := Push(j, 0)], next := 1)
  {
    var clients := s0.clients;
    s := s0;
    var s' := s.(clients := clients[c := Index(j)]);
    Go(p, r, s, Post(c, j), s');
    s, s' := s', s'.(clients := clients[c := Offer(j, 0)], next := 1);
    GoClient(p, r, s, c, s');
    s, s' := s', s'.(clients := clients[c := Push(j, 0)]);
    GoClient(p, r, s, c, s');
    s := s';
  }

  /** Client c posts a job to an empty worker; it is pushed, but not counted. */
  lemma Posted(p: Policy, r: State -> bool, s0: State, c: nat, j: Job) returns (s: State)
    requires Kept(p, r) && r(s0) && c < |s0.clients| && forall d :: 0 <= d < |s0.clients| ==> s0.clients[d] == Outside
    requires |s0.workers| == 1 && s0.workers[0].stack == [] && !s0.workers[0].stopped
    requires s0.next == 0 && s0.accepted == {}
    ensures r(s) && s.workers == [Notified(Worker([j], false, true, s0.workers[0].pc))]
    ensures s.clients == s0.clients[c := Count] && s.counter == s0.counter && s.idle == s0.idle
  {
    var clients, k := s0.clients, s0.workers[0];
    s := Offers(p, r, s0, c, j);
    assert [j] + k.stack == [j];
    var s' := s.(clients := clients[c := SetWork(0)], workers := [k.(stack := [j])], accepted := s.accepted + {j});
    GoClient(p, r, s, c, s');
    s, s' := s', s'.(clients := clients[c := NotifyWork(0)], workers := [k.(stack := [j], flag := true)]);
    GoClient(p, r, s, c, s');
    s, s' := s', s'.(clients := clients[c := Count], workers := [Notified(k.(stack := [j], flag := true))]);
    GoClient(p, r, s, c, s');
    s := s';
  }

  /** The worker pops the job and executes it. */
  lemma Executed(p: Policy, r: State -> bool, s0: State, j: Job, flag: bool) returns (s: State)
    requires Kept(p, r) && r(s0) && Overlaps(p, s0.clients) && s0.workers == [Worker([j], false, flag, Top)]
    ensures r(s) && s.workers == [Worker([], false, flag, Again(j))]
    ensures s.clients == s0.clients && s.counter == s0.counter && s.idle == s0.idle
  {
    assert [j][1..] == [];
    s := GoWorker(p, r, s0);
    s := GoWorker(p, r, s);
    assert s.workers == [Worker([], false, flag, Execute(j))];
    s := GoWorker(p, r, s);
  }

  /** The worker pops the job, does it and subtracts it. */
  lemma Worked(p: Policy, r: State -> bool, s0: State, j: Job, flag: bool) returns (s: State)
    requires Kept(p, r) && r(s0) && Overlaps(p, s0.clients) && s0.workers == [Worker([j], false, flag, Top)]
    ensures r(s) && s.workers == [Worker([], false, flag, Top)]
    ensures s.clients == s0.clients && s.counter == s0.counter - 1 && s.idle == s0.idle
  {
    s := Executed(p, r, s0, j, flag);
    s := GoWorker(p, r, s);
    s := GoWorker(p, r, s);
    s := GoWorker(p, r, s);
  }

  /** The worker finds no job, says that it is idle and comes to its wait. */
  lemma Announced(p: Policy, r: State -> bool, s0: State, flag: bool) returns (s: State)
    requires Kept(p, r) && r(s0) && Overlaps(p, s0.clients) && s0.workers == [Worker([], false, flag, Top)]
    ensures r(s)
    ensures s == s0.(workers := [Worker([], false, flag, Wait(Fast))],
                     clients := WakeClients(s0.clients), idle := true)
    ensures Overlaps(p, s.clients)
  {
    s := GoWorker(p, r, s0);
    s := GoWorker(p, r, s);
    s := GoWorker(p, r, s);
    s := GoWorker(p, r, s);
    s := GoWorker(p, r, s);
  }

  /** With its flag clear it sleeps. */
  lemma Rests(p: Policy, r: State -> bool, s0: State) returns (s: State)
    requires Kept(p, r) && r(s0) && Overlaps(p, s0.clients) && s0.workers == [Worker([], false, false, Wait(Fast))]
    ensures r(s) && s == s0.(workers := [Worker([], false, false, Wait(Asleep))])
  {
    s := GoWorker(p, r, s0);
    s := GoWorker(p, r, s);
  }

  /** Through a set flag, once more over an empty stack, and to sleep. */
  lemma FallsAsleep(p: Policy, r: State -> bool, s0: State) returns (s: State)
    requires Kept(p, r) && r(s0) && Overlaps(p, s0.clients) && s0.workers == [Worker([], false, true, Top)]
    requires forall c :: 0 <= c < |s0.clients| ==> s0.clients[c] != Idle(Asleep)
    ensures r(s) && s.workers == [Worker([], false, false, Wait(Asleep))]
    ensures s.clients == s0.clients && s.counter == s0.counter && s.idle
  {
    NoSleepers(s0.clients);
    s := Announced(p, r, s0, true);
    s := GoWorker(p, r, s);
    s := GoWorker(p, r, s);
    s := Announced(p, r, s, false);
    s := Rests(p, r, s);
  }

  /** A client at its look at the counter, which is not zero, with the idle flag set
      from before: it goes through the flag, looks again, and sleeps. */
  lemma WaitsTwice(p: Policy, r: State -> bool, s0: State, c: nat) returns (s: State)
    requires Kept(p, r) && r(s0) && Overlaps(p, s0.clients) && c < |s0.clients|
    requires s0.clients[c] == Load && s0.counter != 0 && s0.idle
    ensures r(s) && s == s0.(clients := s0.clients[c := Idle(Asleep)], idle := false)
  {
    var cs := s0.clients;
    s := s0;
    var s' := s.(clients := cs[c := Idle(Fast)]);
    GoClient(p, r, s, c, s');
    s, s' := s', s'.(clients := cs[c := Idle(Clear)]);
    GoClient(p, r, s, c, s');
    s, s' := s', s'.(clients := cs[c := Load], idle := false);
    GoClient(p, r, s, c, s');
    s := Sleeps(p, r, s', c);
  }

  /** The same with the idle flag clear: it sleeps at once. */
  lemma Sleeps(p: Policy, r: State -> bool, s0: State, c: nat) returns (s: State)
    requires Kept(p, r) && r(s0) && Overlaps(p, s0.clients) && c < |s0.clients|
    requires s0.clients[c] == Load && s0.counter != 0 && !s0.idle
    ensures r(s) && s == s0.(clients := s0.clients[c := Idle(Asleep)])
  {
    var cs := s0.clients;
    s := s0;
    var s' := s.(clients := cs[c := Idle(Fast)]);
    GoClient(p, r, s, c, s');
    s, s' := s', s'.(clients := cs[c := Idle(Lock)]);
    GoClient(p, r, s, c, s');
    s, s' := s', s'.(clients := cs[c := Idle(Asleep)]);
    GoClient(p, r, s, c, s');
    s := s';
  }

  // ------------------------------------------------------------------ hanging

  /** A post overlaps: its job is done and subtracted before it is counted, so the wait
      finds a counter that is not zero, uses up the idle flag and goes to sleep; when the
      post counts at last, everybody else is asleep. */
  lemma OverlappingPostHangs(p: Policy, r: State -> bool, j: Job) returns (s: State)
    requires p.posts && Kept(p, r)
    ensures r(s) && Hung(s) && s.counter == 0
  {
    s := Begin(p, r, [Outside, Outside]);
    s := Posted(p, r, s, 1, j);
    s := Worked(p, r, s, j, true);
    s := FallsAsleep(p, r, s);
    var s' := s.(clients := [Load, Count]);
    Go(p, r, s, AwaitIdle(0), s');
    s := WaitsTwice(p, r, s', 0);
    s' := s.(clients := [Idle(Asleep), Outside], counter := 0);
    GoClient(p, r, s, 1, s');
    s := s';
    HungIs(s);
  }

  /** Two waits overlap: the worker wakes both, one resets the idle flag and leaves, the
      other finds it clear and sleeps again. */
  lemma OverlappingWaitHangs(p: Policy, r: State -> bool, j: Job) returns (s: State)
    requires p.waits && Kept(p, r)
    ensures r(s) && Hung(s) && s.counter == 0
  {
    s := PostedToSleeper(p, r, j);
    s := BothWait(p, r, s);
    s := GoWorker(p, r, s);
    s := GoWorker(p, r, s);
    s := Worked(p, r, s, j, false);
    s := Announced(p, r, s, false);
    assert s.clients == [Idle(Woken), Idle(Woken)];
    s := SecondLeaves(p, r, s);
    s := Rests(p, r, s);
    HungIs(s);
  }

  /** The worker went to sleep before a job was posted, which has just woken it. */
  lemma PostedToSleeper(p: Policy, r: State -> bool, j: Job) returns (s: State)
    requires Kept(p, r)
    ensures r(s) && s.workers == [Worker([j], false, true, Wait(Woken))] && s.clients == [Outside, Outside]
    ensures s.counter == 1 && s.idle
  {
    s := Begin(p, r, [Outside, Outside]);
    NoSleepers(s.clients);
    s := Announced(p, r, s, false);
    s := Rests(p, r, s);
    s := Posted(p, r, s, 0, j);
    var s' := s.(clients := [Outside, Outside], counter := 1);
    GoClient(p, r, s, 0, s');
    s := s';
  }

  lemma BothWait(p: Policy, r: State -> bool, s0: State) returns (s: State)
    requires p.waits && Kept(p, r) && r(s0) && s0.clients == [Outside, Outside] && s0.counter == 1 && s0.idle
    ensures r(s) && s == s0.(clients := [Idle(Asleep), Idle(Asleep)], idle := false) && Overlaps(p, s.clients)
  {
    var s' := s0.(clients := [Load, Outside]);
    Go(p, r, s0, AwaitIdle(0), s');
    s := WaitsTwice(p, r, s', 0);
    s' := s.(clients := [Idle(Asleep), Load]);
    Go(p, r, s, AwaitIdle(1), s');
    s := Sleeps(p, r, s', 1);
  }

  /** Both are awake: the second takes the flag, sees zero and leaves. */
  lemma SecondLeaves(p: Policy, r: State -> bool, s0: State) returns (s: State)
    requires p.waits && Kept(p, r) && r(s0) && s0.clients == [Idle(Woken), Idle(Woken)] && s0.counter == 0 && s0.idle
    ensures r(s) && s == s0.(clients := [Idle(Asleep), Outside], idle := false) && Overlaps(p, s.clients)
  {
    s := s0;
    var s' := s.(clients := [Idle(Woken), Idle(Clear)]);
    GoClient(p, r, s, 1, s');
    s, s' := s', s'.(clients := [Idle(Woken), Load], idle := false);
    GoClient(p, r, s, 1, s');
    s, s' := s', s'.(clients := [Idle(Woken), Outside]);
    GoClient(p, r, s, 1, s');
    s, s' := s', s'.(clients := [Idle(Asleep), Outside]);
    GoClient(p, r, s, 0, s');
    s := s';
  }

  /** The pool was stopped: a job left on a worker's stack is never done, and a wait for
      it never ends. */
  lemma StopHangs(p: Policy, r: State -> bool, j: Job) returns (s: State)
    requires p.stops && Kept(p, r)
    ensures r(s) && Hung(s)
  {
    s := Begin(p, r, [Outside]);
    s := Posted(p, r, s, 0, j);
    var s' := s.(clients := [Outside], counter := 1);
    GoClient(p, r, s, 0, s');
    s := Stopped(p, r, s', j);
    s' := s.(clients := [Load]);
    Go(p, r, s, AwaitIdle(0), s');
    s := WaitsTwice(p, r, s', 0);
    HungIs(s);
  }

  lemma StopsTheWorker(p: Policy, r: State -> bool, s0: State, j: Job) returns (s: State)
    requires p.stops && Kept(p, r) && r(s0) && s0.clients == [Outside] && s0.workers == [Worker([j], false, true, Top)]
    ensures r(s) && s == s0.(workers := [Worker([j], true, true, Top)], clients := [Join(0)])
  {
    var s' := s0.(clients := [StopStore(0)]);
    Go(p, r, s0, StopAll(0), s');
    s, s' := s', s'.(clients := [StopSet(0)], workers := [Worker([j], true, true, Top)]);
    GoClient(p, r, s, 0, s');
    s, s' := s', s'.(clients := [StopNotify(0)]);
    GoClient(p, r, s, 0, s');
    s, s' := s', s'.(clients := [StopStore(1)]);
    GoClient(p, r, s, 0, s');
    s, s' := s', s'.(clients := [Join(0)]);
    GoClient(p, r, s, 0, s');
    s := s';
  }

  lemma Stopped(p: Policy, r: State -> bool, s0: State, j: Job) returns (s: State)
    requires p.stops && Kept(p, r) && r(s0) && s0.clients == [Outside] && s0.workers == [Worker([j], false, true, Top)]
    ensures r(s) && s == s0.(workers := [Worker([j], true, true, Exited)], idle := true)
  {
    s := StopsTheWorker(p, r, s0, j);
    NoSleepers(s.clients);
    s := GoWorker(p, r, s);
    s := GoWorker(p, r, s);
    s := GoWorker(p, r, s);
    var s' := s.(clients := [Join(1)]);
    GoClient(p, r, s, 0, s');
    s, s' := s', s'.(clients := [Outside]);
    GoClient(p, r, s, 0, s');
    s := s';
  }

  // -------------------------------------------------------------- exact answers

  ghost predicate NeverHangs(p: Policy) {
    forall s :: Reached(p, s) ==> !Hung(s)
  }

  /** A wait never hangs if and only if nothing may overlap it: while a client waits for
      idle, every other client must be outside its operations, and nobody may stop the
      pool. */
  lemma WaitNeverHangsIff(p: Policy)
    ensures NeverHangs(p) <==> !p.posts && !p.waits && !p.stops
  {
    ReachedIsKept(p);
    var r := (s: State) => Reached(p, s);
    var j: Job := *;
    if p.posts {
      var s := OverlappingPostHangs(p, r, j);
      assert Reached(p, s) && Hung(s);
    } else if p.waits {
      var s := OverlappingWaitHangs(p, r, j);
      assert Reached(p, s) && Hung(s);
    } else if p.stops {
      var s := StopHangs(p, r, j);
      assert Reached(p, s) && Hung(s);
    } else {
      QuietNeverHangs(p);
    }
  }

  lemma QuietNeverHangs(p: Policy)
    requires p == QUIET
    ensures NeverHangs(p)
  {
    forall s | Reached(p, s) ensures !Hung(s) {
      if c :| 0 <= c < |s.clients| && s.clients[c] == Idle(Asleep) {
        var w := BlockedClientHasARunner(s, c);
      }
    }
  }

  /** Whenever the look at the counter lets a client go, all accepted jobs have run and
      completed. */
  ghost predicate IsHonest(p: Policy) {
    forall s, c: nat :: Reached(p, s) && c < |s.clients| && s.clients[c] == Load && s.counter == 0 ==>
      AllDone(s) && s.accepted <= s.completed && HaveRun(s.completed, s.ran)
  }

  /** A wait is honest if and only if no post may overlap it. */
  lemma WaitIsHonestIff(p: Policy)
    ensures IsHonest(p) <==> !p.posts
  {
    if p.posts {
      ReachedIsKept(p);
      var j: Job := *;
      var s := EarlyZero(p, (s: State) => Reached(p, s), j);
      assert Reached(p, s) && s.clients[0] == Load && s.workers[0].stack != [];
    } else {
      forall s, c: nat | Reached(p, s) && c < |s.clients| && s.clients[c] == Load && s.counter == 0
        ensures AllDone(s) && s.accepted <= s.completed && HaveRun(s.completed, s.ran)
      {
        IdleMeansDone(p, s, c);
      }
    }
  }

  /** A job on the stack, its post not yet counted, and a client that looks now. */
  lemma EarlyZero(p: Policy, r: State -> bool, j: Job) returns (s: State)
    requires p.posts && Kept(p, r)
    ensures r(s) && s.clients == [Load, Count] && s.counter == 0 && s.workers == [Worker([j], false, true, Top)]
  {
    s := Begin(p, r, [Outside, Outside]);
    s := Posted(p, r, s, 1, j);
    var s' := s.(clients := [Load, Count]);
    Go(p, r, s, AwaitIdle(0), s');
    s := s';
  }
}
