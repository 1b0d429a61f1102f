/** How often the pool runs a job, and which of its jobs a worker takes: over all runs, with
    any number of clients. */
module PoolRuns {
  import opened ThreadPool
  import opened PoolJobs

  // --------------------------------------------------------- executions of a job

  /** How often next() asked for another execution of the job, and how often for none. */
  function Yes(answers: multiset<Answer>, j: Job): nat {
    answers[Answer(j, true)]
  }

  function No(answers: multiset<Answer>, j: Job): nat {
    answers[Answer(j, false)]
  }

  predicate Untouched(j: Job, ran: multiset<Job>, answers: multiset<Answer>) {
    ran[j] == 0 && Yes(answers, j) == 0 && No(answers, j) == 0
  }

  /** Executed once, and once more for each time next() asked for it. */
  predicate RanAsAsked(j: Job, ran: multiset<Job>, answers: multiset<Answer>) {
    ran[j] == Yes(answers, j) + 1 && No(answers, j) <= 1
  }

  ghost predicate HandTally(k: Worker, ran: multiset<Job>, answers: multiset<Answer>) {
    match k.pc
    case Execute(j) => ran[j] == Yes(answers, j) && No(answers, j) == 0
    case Again(j) => RanAsAsked(j, ran, answers) && No(answers, j) == 0
    case Complete(j) => RanAsAsked(j, ran, answers) && (No(answers, j) == 0 ==> k.stopped)
    case _ => true
  }

  ghost predicate StackTally(k: Worker, ran: multiset<Job>, answers: multiset<Answer>) {
    forall j :: j in k.stack ==> Untouched(j, ran, answers)
  }

  ghost predicate AnyStopped(workers: seq<Worker>) {
    exists w :: 0 <= w < |workers| && workers[w].stopped
  }

  ghost predicate DoneTally(s: State) {
    forall j :: j in s.completed ==>
      RanAsAsked(j, s.ran, s.answers) && (No(s.answers, j) == 0 ==> AnyStopped(s.workers))
  }

  ghost predicate FreshTally(s: State) {
    forall j :: j !in s.accepted ==> Untouched(j, s.ran, s.answers)
  }

  ghost predicate Tallied(s: State) {
    && (forall w :: 0 <= w < |s.workers| ==> HandTally(s.workers[w], s.ran, s.answers))
    && (forall w :: 0 <= w < |s.workers| ==> StackTally(s.workers[w], s.ran, s.answers))
    && DoneTally(s) && FreshTally(s)
  }

  /** What a worker's step adds to the history. */
  lemma WorkerHistory(s: State, w: nat, more: bool, s': State)
    requires w < |s.workers| && WorkerActs(s, w, more, s')
    ensures var k := s.workers[w];
      && s'.ran == (if k.pc.Execute? then s.ran + multiset{k.pc.j} else s.ran)
      && s'.answers == (if k.pc.Again? && !k.stopped then s.answers + multiset{Answer(k.pc.j, more)} else s.answers)
      && s'.completed == (if k.pc.Complete? then s.completed + {k.pc.j} else s.completed)
      && s'.accepted == s.accepted
  {
  }

  /** Counts change for the job in hand only. */
  lemma OthersUncounted(s: State, w: nat, more: bool, s': State, j: Job)
    requires w < |s.workers| && WorkerActs(s, w, more, s') && j !in Hand(s.workers[w].pc)
    ensures s'.ran[j] == s.ran[j]
    ensures Yes(s'.answers, j) == Yes(s.answers, j) && No(s'.answers, j) == No(s.answers, j)
  {
    WorkerHistory(s, w, more, s');
  }

  lemma MoverTally(k: Worker, more: bool, ran: multiset<Job>, answers: multiset<Answer>,
                   ran': multiset<Job>, answers': multiset<Answer>)
    requires CanRun(k.pc) && HandTally(k, ran, answers) && StackTally(k, ran, answers)
    requires ran' == if k.pc.Execute? then ran + multiset{k.pc.j} else ran
    requires answers' == if k.pc.Again? && !k.stopped then answers + multiset{Answer(k.pc.j, more)} else answers
    ensures HandTally(Moved(k, more), ran', answers')
  {
    if k.pc.Pop? && k.stack != [] {
      assert k.stack[0] in k.stack;
    }
  }

  /** Jobs of different workers are different, and no job in hand is on a stack. */
  lemma NotInHand(s: State, owner: map<Job, nat>, w: nat, v: nat, j: Job)
    requires Held(s, owner) && w < |s.workers| && v < |s.workers|
    requires j in s.workers[v].stack || (v != w && j in Hand(s.workers[v].pc))
    ensures j !in Hand(s.workers[w].pc)
  {
    assert HoldsOwn(s.workers[w], owner, w) && HoldsOwn(s.workers[v], owner, v);
  }

  lemma OthersTally(s: State, owner: map<Job, nat>, w: nat, more: bool, s': State, v: nat)
    requires Held(s, owner) && w < |s.workers| && WorkerActs(s, w, more, s') && v < |s.workers| && v != w
    requires HandTally(s.workers[v], s.ran, s.answers)
    ensures HandTally(s.workers[v], s'.ran, s'.answers)
  {
    if Hand(s.workers[v].pc) != {} {
      var j := s.workers[v].pc.j;
      NotInHand(s, owner, w, v, j);
      OthersUncounted(s, w, more, s', j);
    }
  }

  lemma StacksTally(s: State, owner: map<Job, nat>, w: nat, more: bool, s': State, v: nat, stack: seq<Job>)
    requires Held(s, owner) && w < |s.workers| && WorkerActs(s, w, more, s') && v < |s.workers|
    requires StackTally(s.workers[v], s.ran, s.answers)
    requires forall j :: j in stack ==> j in s.workers[v].stack
    ensures forall j :: j in stack ==> Untouched(j, s'.ran, s'.answers)
  {
    forall j | j in stack ensures Untouched(j, s'.ran, s'.answers) {
      NotInHand(s, owner, w, v, j);
      OthersUncounted(s, w, more, s', j);
    }
  }

  lemma ShorterStack(k: Worker, more: bool)
    requires CanRun(k.pc)
    ensures forall j :: j in Moved(k, more).stack ==> j in k.stack
    ensures Moved(k, more).stopped == k.stopped
  {
  }

  lemma StopsLast(workers: seq<Worker>, workers': seq<Worker>)
    requires AnyStopped(workers) && |workers'| == |workers|
    requires forall w :: 0 <= w < |workers| && workers[w].stopped ==> workers'[w].stopped
    ensures AnyStopped(workers')
  {
    var w :| 0 <= w < |workers| && workers[w].stopped;
    assert workers'[w].stopped;
  }

  lemma WorkerKeepsDone(s: State, owner: map<Job, nat>, w: nat, more: bool, s': State)
    requires Held(s, owner) && w < |s.workers| && WorkerActs(s, w, more, s')
    requires DoneTally(s) && HandTally(s.workers[w], s.ran, s.answers)
    ensures DoneTally(s')
  {
    var k := s.workers[w];
    WorkerHistory(s, w, more, s');
    OthersLeft(s, w, more, s');
    ShorterStack(k, more);
    if AnyStopped(s.workers) { StopsLast(s.workers, s'.workers); }
    assert HandOk(k, s.ran, s.completed);
    forall j | j in s'.completed
      ensures RanAsAsked(j, s'.ran, s'.answers) && (No(s'.answers, j) == 0 ==> AnyStopped(s'.workers))
    {
      if j in s.completed {
        if j in Hand(k.pc) { assert k.pc.Uncount?; }
        DoneStays(s, w, more, s', j);
      } else if k.stopped {
        assert s'.workers[w].stopped;
      }
    }
  }

  lemma DoneStays(s: State, w: nat, more: bool, s': State, j: Job)
    requires w < |s.workers| && WorkerActs(s, w, more, s') && (j in Hand(s.workers[w].pc) ==> s.workers[w].pc.Uncount?)
    ensures s'.ran[j] == s.ran[j]
    ensures Yes(s'.answers, j) == Yes(s.answers, j) && No(s'.answers, j) == No(s.answers, j)
  {
    WorkerHistory(s, w, more, s');
  }

  lemma WorkerKeepsFresh(s: State, owner: map<Job, nat>, w: nat, more: bool, s': State)
    requires Held(s, owner) && History(s, owner) && w < |s.workers| && WorkerActs(s, w, more, s') && FreshTally(s)
    ensures FreshTally(s')
  {
    WorkerHistory(s, w, more, s');
    assert HoldsOwn(s.workers[w], owner, w);
    forall j | j !in s'.accepted ensures Untouched(j, s'.ran, s'.answers) {
      OthersUncounted(s, w, more, s', j);
    }
  }

  lemma WorkerKeepsTally(s: State, owner: map<Job, nat>, w: nat, more: bool, s': State)
    requires Held(s, owner) && History(s, owner) && Tallied(s) && w < |s.workers| && WorkerActs(s, w, more, s')
    ensures Tallied(s')
  {
    var k := s.workers[w];
    OthersLeft(s, w, more, s');
    WorkerHistory(s, w, more, s');
    ShorterStack(k, more);
    forall v | 0 <= v < |s'.workers|
      ensures HandTally(s'.workers[v], s'.ran, s'.answers) && StackTally(s'.workers[v], s'.ran, s'.answers)
    {
      StacksTally(s, owner, w, more, s', v, s'.workers[v].stack);
      if v == w {
        MoverTally(k, more, s.ran, s.answers, s'.ran, s'.answers);
      } else {
        OthersTally(s, owner, w, more, s', v);
      }
    }
    WorkerKeepsDone(s, owner, w, more, s');
    WorkerKeepsFresh(s, owner, w, more, s');
  }

  /** A client's push brings an untouched job; nothing else it does counts. */
  lemma ClientKeepsTally(s: State, c: nat, s': State)
    requires Inv(s) && OffersOk(s) && Tallied(s) && c < |s.clients| && ClientActs(s, c, s')
    ensures Tallied(s')
  {
    ClientOutside(s, c, s');
    var p := s.clients[c];
    if p.Push? { assert p.j in Offered(p); }
    forall v | 0 <= v < |s'.workers|
      ensures HandTally(s'.workers[v], s'.ran, s'.answers) && StackTally(s'.workers[v], s'.ran, s'.answers)
      ensures s.workers[v].stopped ==> s'.workers[v].stopped
    {
      ClientOnWorker(s, c, s', v);
      ClientLeavesWorkers(s, c, s', v);
      assert HandTally(s.workers[v], s.ran, s.answers) && StackTally(s.workers[v], s.ran, s.answers);
    }
    if AnyStopped(s.workers) { StopsLast(s.workers, s'.workers); }
  }

  lemma SmallStepKeepsTally(s: State, step: Step, s': State)
    requires Tallied(s) && Next(s, step, s') && !step.WorkerRuns? && !step.ClientRuns?
    ensures Tallied(s')
  {
    forall v | 0 <= v < |s'.workers|
      ensures HandTally(s'.workers[v], s'.ran, s'.answers) && StackTally(s'.workers[v], s'.ran, s'.answers)
      ensures s.workers[v].stopped ==> s'.workers[v].stopped
    {
      assert HandTally(s.workers[v], s.ran, s.answers) && StackTally(s.workers[v], s.ran, s.answers);
    }
    if AnyStopped(s.workers) { StopsLast(s.workers, s'.workers); }
  }

  lemma StepKeepsTally(s: State, owner: map<Job, nat>, step: Step, s': State)
    requires JobsInv(s, owner) && Tallied(s) && Next(s, step, s')
    ensures Tallied(s')
  {
    match step
    case WorkerRuns(w, more) => WorkerKeepsTally(s, owner, w, more, s');
    case ClientRuns(c) => ClientKeepsTally(s, c, s');
    case _ => SmallStepKeepsTally(s, step, s');
  }

  lemma InitTally(s: State)
    requires Init(s)
    ensures Tallied(s)
  {
  }

  lemma TallyStep(s: State, step: Step, s': State, before: map<Job, nat>) returns (owner: map<Job, nat>)
    requires JobsInv(s, before) && Tallied(s) && Next(s, step, s')
    ensures JobsInv(s', owner) && Tallied(s')
  {
    StepKeepsTally(s, before, step, s');
    owner := JobsStep(s, step, s', before);
  }

  lemma InitTallied(s: State)
    requires Init(s)
    ensures JobsInv(s, map[]) && Tallied(s)
  {
    InitJobs(s);
    InitTally(s);
  }

  lemma {:induction false} RunKeepsTally(states: seq<State>, steps: seq<Step>, n: nat) returns (owner: map<Job, nat>)
    requires n <= |steps| < |states| && Run(states, steps, n)
    ensures JobsInv(states[n], owner) && Tallied(states[n])
  {
    if n == 0 {
      InitTallied(states[0]);
      owner := map[];
    } else {
      var before := RunKeepsTally(states, steps, n - 1);
      owner := TallyStep(states[n - 1], steps[n - 1], states[n], before);
    }
  }

  /** A completed job was executed once more than next() asked for; next() said no at most
      once, and once exactly unless some worker was stopped. */
  lemma CompletedRanAsAsked(states: seq<State>, steps: seq<Step>, n: nat, j: Job)
    requires n <= |steps| < |states| && Run(states, steps, n) && j in states[n].completed
    ensures states[n].ran[j] == Yes(states[n].answers, j) + 1
    ensures No(states[n].answers, j) <= 1
    ensures No(states[n].answers, j) == 1 || exists w :: 0 <= w < |states[n].workers| && states[n].workers[w].stopped
  {
    var owner := RunKeepsTally(states, steps, n);
  }

  /** A job that was not accepted, because its post was refused or is still on its way, has
      left no trace. */
  lemma OnlyAcceptedRun(states: seq<State>, steps: seq<Step>, n: nat, j: Job)
    requires n <= |steps| < |states| && Run(states, steps, n) && j !in states[n].accepted
    ensures states[n].ran[j] == 0 && Yes(states[n].answers, j) == 0 && No(states[n].answers, j) == 0
    ensures j !in states[n].completed
  {
    var owner := RunKeepsTally(states, steps, n);
    assert Untouched(j, states[n].ran, states[n].answers);
  }

  /** A worker completes a job that was not completed before, and only after next() said no
      or after the worker itself was stopped. */
  lemma CompletesWhenDone(states: seq<State>, steps: seq<Step>, n: nat, w: nat)
    requires n <= |steps| < |states| && Run(states, steps, n)
    requires w < |states[n].workers| && states[n].workers[w].pc.Complete?
    ensures var j := states[n].workers[w].pc.j;
      && j !in states[n].completed && states[n].ran[j] == Yes(states[n].answers, j) + 1
      && (No(states[n].answers, j) == 1 || states[n].workers[w].stopped)
  {
    var owner := RunKeepsTally(states, steps, n);
    assert HandTally(states[n].workers[w], states[n].ran, states[n].answers);
    assert HandOk(states[n].workers[w], states[n].ran, states[n].completed);
  }

  // ------------------------------------------------------------ which job is taken

  /** Of two jobs on a stack the one nearer the top was accepted later: there was a moment
      when the other was accepted and it was not. */
  ghost predicate AcceptedBefore(states: seq<State>, n: nat, elder: Job, young: Job)
    requires n < |states|
  {
    exists m :: 0 <= m <= n && elder in states[m].accepted && young !in states[m].accepted
  }

  ghost predicate NewestFirst(states: seq<State>, n: nat, stack: seq<Job>)
    requires n < |states|
  {
    forall i, k :: 0 <= i < k < |stack| ==> AcceptedBefore(states, n, stack[k], stack[i])
  }

  lemma StillBefore(states: seq<State>, n: nat, elder: Job, young: Job)
    requires n + 1 < |states| && AcceptedBefore(states, n, elder, young)
    ensures AcceptedBefore(states, n + 1, elder, young)
  {
    var m :| 0 <= m <= n && elder in states[m].accepted && young !in states[m].accepted;
    assert 0 <= m <= n + 1;
  }

  lemma StackStays(states: seq<State>, n: nat, stack: seq<Job>, stack': seq<Job>)
    requires n + 1 < |states| && NewestFirst(states, n, stack)
    requires stack' == stack || (stack != [] && stack' == stack[1..])
    ensures NewestFirst(states, n + 1, stack')
  {
    forall i, k | 0 <= i < k < |stack'| ensures AcceptedBefore(states, n + 1, stack'[k], stack'[i]) {
      var d := if stack' == stack then 0 else 1;
      assert stack'[i] == stack[i + d] && stack'[k] == stack[k + d];
      StillBefore(states, n, stack[k + d], stack[i + d]);
    }
  }

  lemma StackGrows(states: seq<State>, n: nat, stack: seq<Job>, j: Job)
    requires n + 1 < |states| && NewestFirst(states, n, stack)
    requires j !in states[n].accepted && forall i :: i in stack ==> i in states[n].accepted
    ensures NewestFirst(states, n + 1, [j] + stack)
  {
    var top := [j] + stack;
    forall i, k | 0 <= i < k < |top| ensures AcceptedBefore(states, n + 1, top[k], top[i]) {
      if i == 0 {
        assert top[k] in stack && 0 <= n <= n + 1;
      } else {
        StillBefore(states, n, stack[k - 1], stack[i - 1]);
      }
    }
  }

  /** What a step does to the stack of worker w: it pushes a job that was not accepted, pops
      the top, or leaves it. */
  lemma StackSteps(s: State, owner: map<Job, nat>, step: Step, s': State, w: nat)
    requires JobsInv(s, owner) && Next(s, step, s') && w < |s.workers|
    ensures |s'.workers| == |s.workers|
    ensures var a, b := s.workers[w].stack, s'.workers[w].stack;
      b == a || (a != [] && b == a[1..]) || (b != [] && b == [b[0]] + a && b[0] !in s.accepted)
  {
    match step
    case WorkerRuns(v, more) =>
      OthersLeft(s, v, more, s');
      WorkerHand(s.workers[v], more, Moved(s.workers[v], more));
    case ClientRuns(c) =>
      ClientOnWorker(s, c, s', w);
      if s.clients[c].Push? { assert s.clients[c].j in Offered(s.clients[c]); }
    case _ =>
  }

  ghost predicate AllNewestFirst(states: seq<State>, n: nat)
    requires n < |states|
  {
    forall w :: 0 <= w < |states[n].workers| ==> NewestFirst(states, n, states[n].workers[w].stack)
  }

  lemma NewestStays(states: seq<State>, steps: seq<Step>, n: nat, owner: map<Job, nat>)
    requires n < |steps| < |states| && JobsInv(states[n], owner) && Next(states[n], steps[n], states[n + 1])
    requires AllNewestFirst(states, n)
    ensures AllNewestFirst(states, n + 1)
  {
    var s, s' := states[n], states[n + 1];
    WorkersStay(s, steps[n], s');
    forall w | 0 <= w < |s'.workers| ensures NewestFirst(states, n + 1, s'.workers[w].stack) {
      StackSteps(s, owner, steps[n], s', w);
      var a, b := s.workers[w].stack, s'.workers[w].stack;
      if b == a || (a != [] && b == a[1..]) {
        StackStays(states, n, a, b);
      } else {
        assert HoldsOwn(s.workers[w], owner, w);
        StackGrows(states, n, a, b[0]);
      }
    }
  }

  lemma InitNewest(states: seq<State>)
    requires |states| > 0 && Init(states[0])
    ensures AllNewestFirst(states, 0)
  {
  }

  lemma {:induction false} RunKeepsNewest(states: seq<State>, steps: seq<Step>, n: nat)
    requires n <= |steps| < |states| && Run(states, steps, n)
    ensures AllNewestFirst(states, n)
    decreases n
  {
    if n == 0 {
      InitNewest(states);
    } else {
      RunKeepsNewest(states, steps, n - 1);
      var owner := RunKeepsJobs(states, steps, n - 1);
      NewestStays(states, steps, n - 1, owner);
    }
  }

  /** Every worker's stack has its jobs in the order of their acceptance, the newest on top;
      so the job it takes is the newest it has. */
  lemma NewestOnTop(states: seq<State>, steps: seq<Step>, n: nat, w: nat)
    requires n <= |steps| < |states| && Run(states, steps, n) && w < |states[n].workers|
    ensures NewestFirst(states, n, states[n].workers[w].stack)
  {
    RunKeepsNewest(states, steps, n);
  }
}
