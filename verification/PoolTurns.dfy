/** Which worker a post goes to, how often a set() lets a worker out of its wait, which posts
    are refused, and what a stop leads to: over all runs, with any number of clients. */
module PoolTurns {
  import opened ThreadPool
  import opened PoolJobs
  import opened Remainders

  // ------------------------------------------------------- which worker a post goes to

  /** The worker the k-th post goes to, of n workers: all in turn, and the first once more,
      since the index stored after the last worker is the one just used. */
  function Turn(k: nat, n: nat): nat {
    if k % (n + 1) == n then 0 else k % (n + 1)
  }

  /** A step that chooses the worker of a post. */
  ghost predicate Chooses(s: State, step: Step) {
    && step.ClientRuns? && step.c < |s.clients|
    && (s.clients[step.c].Wrap? || (s.clients[step.c].Index? && s.next < |s.workers|))
  }

  /** How many of the first n steps do. */
  ghost function Chosen(states: seq<State>, steps: seq<Step>, n: nat): nat
    requires n <= |steps| < |states|
  {
    if n == 0 then 0
    else Chosen(states, steps, n - 1) + if Chooses(states[n - 1], steps[n - 1]) then 1 else 0
  }

  ghost predicate NoneWraps(clients: seq<ClientPC>) {
    forall c :: 0 <= c < |clients| ==> !clients[c].Wrap?
  }

  /** No client takes an index while another is about to store one. */
  ghost predicate Apart(states: seq<State>, steps: seq<Step>, n: nat)
    requires n <= |steps| < |states|
  {
    forall m :: 0 <= m < n ==> ApartStep(states[m], steps[m])
  }

  ghost predicate ApartStep(s: State, step: Step) {
    step.ClientRuns? && step.c < |s.clients| && s.clients[step.c].Index? ==> NoneWraps(s.clients)
  }

  /** After k choices the next index is k modulo n + 1, or one client is about to store 0. */
  ghost predicate Choosing(s: State, k: nat) {
    var n := |s.workers|;
    && (NoneWraps(s.clients) ==> s.next == k % (n + 1))
    && (!NoneWraps(s.clients) ==> s.next == n + 1 && k % (n + 1) == n)
    && (forall c, d :: 0 <= c < d < |s.clients| ==> !s.clients[c].Wrap? || !s.clients[d].Wrap?)
  }

  lemma ClientElsewhere(s: State, c: nat, s': State)
    requires c < |s.clients| && ClientActs(s, c, s') && !s.clients[c].Index? && !s.clients[c].Wrap?
    ensures s'.next == s.next && !s'.clients[c].Wrap?
    ensures |s'.workers| == |s.workers| && s'.clients == s.clients[c := s'.clients[c]]
  {
  }

  /** Only the step of a client at Index or Wrap matters for the choice. */
  lemma StepElsewhere(s: State, step: Step, s': State)
    requires Next(s, step, s') && (step.ClientRuns? ==> !s.clients[step.c].Index? && !s.clients[step.c].Wrap?)
    ensures s'.next == s.next && |s'.workers| == |s.workers| && |s'.clients| == |s.clients|
    ensures forall c :: 0 <= c < |s.clients| ==> (s'.clients[c].Wrap? <==> s.clients[c].Wrap?)
  {
    match step
    case WorkerRuns(w, more) => OthersLeft(s, w, more, s');
    case ClientRuns(c) => ClientElsewhere(s, c, s');
    case _ =>
  }

  lemma IndexChooses(s: State, c: nat, s': State, k: nat)
    requires c < |s.clients| && s.clients[c].Index? && ClientActs(s, c, s') && NoneWraps(s.clients)
    requires Choosing(s, k)
    ensures s.next < |s.workers| ==> s'.clients[c] == Offer(s.clients[c].j, Turn(k, |s.workers|)) && Choosing(s', k + 1)
    ensures s.next >= |s.workers| ==> s'.clients[c].Wrap? && Choosing(s', k)
  {
    NextRemainder(k, |s.workers| + 1);
    assert s'.clients[c].Wrap? ==> !NoneWraps(s'.clients);
  }

  lemma WrapChooses(s: State, c: nat, s': State, k: nat)
    requires c < |s.clients| && s.clients[c].Wrap? && ClientActs(s, c, s') && Choosing(s, k)
    ensures s'.clients[c] == Offer(s.clients[c].j, Turn(k, |s.workers|)) && Choosing(s', k + 1)
  {
    NextRemainder(k, |s.workers| + 1);
    assert !NoneWraps(s.clients);
  }

  lemma StepChooses(s: State, step: Step, s': State, k: nat)
    requires Next(s, step, s') && ApartStep(s, step) && Choosing(s, k)
    ensures Choosing(s', if Chooses(s, step) then k + 1 else k)
    ensures Chooses(s, step) ==>
              step.c < |s'.clients| && s'.clients[step.c] == Offer(s.clients[step.c].j, Turn(k, |s.workers|))
  {
    if step.ClientRuns? && s.clients[step.c].Index? {
      IndexChooses(s, step.c, s', k);
    } else if step.ClientRuns? && s.clients[step.c].Wrap? {
      WrapChooses(s, step.c, s', k);
    } else {
      StepElsewhere(s, step, s');
    }
  }

  lemma InitChoosing(s: State)
    requires Init(s)
    ensures Choosing(s, 0)
  {
  }

  lemma {:induction false} RunChoosing(states: seq<State>, steps: seq<Step>, n: nat)
    requires n <= |steps| < |states| && Run(states, steps, n) && Apart(states, steps, n)
    ensures Choosing(states[n], Chosen(states, steps, n))
  {
    if n == 0 {
      InitChoosing(states[0]);
    } else {
      RunChoosing(states, steps, n - 1);
      StepChooses(states[n - 1], steps[n - 1], states[n], Chosen(states, steps, n - 1));
    }
  }

  /** Posts whose choices do not overlap go to the workers in turn, whatever else happens. */
  lemma PostsInTurn(states: seq<State>, steps: seq<Step>, n: nat, c: nat)
    requires n < |steps| < |states| && Run(states, steps, n + 1) && Apart(states, steps, n + 1)
    requires steps[n] == ClientRuns(c) && Chooses(states[n], steps[n])
    ensures c < |states[n + 1].clients| && states[n + 1].clients[c].Offer?
    ensures states[n + 1].clients[c].i == Turn(Chosen(states, steps, n), |states[n].workers|)
  {
    RunChoosing(states, steps, n);
    assert ApartStep(states[n], steps[n]);
    StepChooses(states[n], steps[n], states[n + 1], Chosen(states, steps, n));
  }

  // ------------------------------------------------------------- the awaiter of a worker

  /** set() on the awaiter of worker w. */
  predicate Sets(s: State, step: Step, w: nat) {
    step.ClientRuns? && step.c < |s.clients| && s.clients[step.c] in [SetWork(w), StopSet(w)]
  }

  /** The return of wait_and_reset(). */
  predicate Returns(s: State, step: Step, w: nat) {
    step.WorkerRuns? && step.w == w < |s.workers| && s.workers[w].pc == Wait(Clear)
  }

  ghost function UpTo(p: nat -> bool, n: nat): set<nat> {
    set m: nat | m < n && p(m)
  }

  lemma UpToOneMore(p: nat -> bool, n: nat)
    ensures |UpTo(p, n + 1)| == |UpTo(p, n)| + if p(n) then 1 else 0
  {
    assert UpTo(p, n + 1) == if p(n) then UpTo(p, n) + {n} else UpTo(p, n);
  }

  /** The steps before the n-th that are one or the other. */
  ghost function SetSteps(states: seq<State>, steps: seq<Step>, n: nat, w: nat): set<nat>
    requires |steps| < |states|
  {
    UpTo((m: nat) => m < |steps| && Sets(states[m], steps[m], w), n)
  }

  ghost function ReturnSteps(states: seq<State>, steps: seq<Step>, n: nat, w: nat): set<nat>
    requires |steps| < |states|
  {
    UpTo((m: nat) => m < |steps| && Returns(states[m], steps[m], w), n)
  }

  function Raised(k: Worker): nat {
    if k.flag then 1 else 0
  }

  /** About to reset the flag, a worker still finds it set. */
  predicate ClearsSet(k: Worker) {
    k.pc == Wait(Clear) ==> k.flag
  }

  /** A return lowers the flag, and nothing but set() raises it. */
  lemma FlagStep(s: State, step: Step, s': State, w: nat)
    requires Next(s, step, s') && w < |s.workers| && ClearsSet(s.workers[w])
    ensures w < |s'.workers| && ClearsSet(s'.workers[w])
    ensures Raised(s'.workers[w]) + (if Returns(s, step, w) then 1 else 0)
              <= Raised(s.workers[w]) + if Sets(s, step, w) then 1 else 0
  {
    match step
    case WorkerRuns(v, more) => OthersLeft(s, v, more, s');
    case ClientRuns(c) => ClientOnWorker(s, c, s', w);
    case _ =>
  }

  ghost predicate ReturnsPaid(states: seq<State>, steps: seq<Step>, n: nat, w: nat)
    requires n <= |steps| < |states|
  {
    && w < |states[n].workers| && ClearsSet(states[n].workers[w])
    && |ReturnSteps(states, steps, n, w)| + Raised(states[n].workers[w]) <= |SetSteps(states, steps, n, w)|
  }

  lemma OneStepMore(states: seq<State>, steps: seq<Step>, n: nat, w: nat)
    requires n < |steps| < |states|
    ensures |SetSteps(states, steps, n + 1, w)|
              == |SetSteps(states, steps, n, w)| + if Sets(states[n], steps[n], w) then 1 else 0
    ensures |ReturnSteps(states, steps, n + 1, w)|
              == |ReturnSteps(states, steps, n, w)| + if Returns(states[n], steps[n], w) then 1 else 0
  {
    UpToOneMore((m: nat) => m < |steps| && Sets(states[m], steps[m], w), n);
    UpToOneMore((m: nat) => m < |steps| && Returns(states[m], steps[m], w), n);
  }

  lemma PaidStep(states: seq<State>, steps: seq<Step>, n: nat, w: nat)
    requires n < |steps| < |states| && Next(states[n], steps[n], states[n + 1]) && ReturnsPaid(states, steps, n, w)
    ensures ReturnsPaid(states, steps, n + 1, w)
  {
    FlagStep(states[n], steps[n], states[n + 1], w);
    OneStepMore(states, steps, n, w);
  }

  lemma InitPaid(states: seq<State>, steps: seq<Step>, w: nat)
    requires |steps| < |states| && Init(states[0]) && w < |states[0].workers|
    ensures ReturnsPaid(states, steps, 0, w)
  {
  }

  lemma {:induction false} RunKeepsPaid(states: seq<State>, steps: seq<Step>, n: nat, w: nat)
    requires n <= |steps| < |states| && Run(states, steps, n) && w < |states[0].workers|
    ensures ReturnsPaid(states, steps, n, w)
    decreases n
  {
    if n == 0 {
      InitPaid(states, steps, w);
    } else {
      RunKeepsPaid(states, steps, n - 1, w);
      PaidStep(states, steps, n - 1, w);
    }
  }

  /** Each set() lets a worker out of its wait once at most, so a worker with nothing to do
      goes back to sleep. */
  lemma OneReturnPerSet(states: seq<State>, steps: seq<Step>, n: nat, w: nat)
    requires n <= |steps| < |states| && Run(states, steps, n) && w < |states[0].workers|
    ensures |ReturnSteps(states, steps, n, w)| <= |SetSteps(states, steps, n, w)|
  {
    RunKeepsPaid(states, steps, n, w);
  }

  // ------------------------------------------------------------- refused posts

  /** A post is refused if and only if the worker it goes to was stopped; a refused job is
      dropped without a trace. */
  lemma RefusedIffStopped(s: State, c: nat, s': State)
    requires c < |s.clients| && s.clients[c].Offer? && ClientActs(s, c, s')
    ensures s'.clients[c].Outside? <==> s.workers[s.clients[c].i].stopped
    ensures s'.clients[c].Outside? ==>
              s'.workers == s.workers && s'.accepted == s.accepted && s'.counter == s.counter
    ensures !s'.clients[c].Outside? ==> s'.clients[c] == Push(s.clients[c].j, s.clients[c].i)
  {
  }

  // ------------------------------------------------------------ what a stop does

  /** Stopped, and not about to look at its stack. */
  ghost predicate Leaving(s: State, w: nat) {
    w < |s.workers| && s.workers[w].stopped && !s.workers[w].pc.Pop?
  }

  lemma StepKeepsLeaving(s: State, step: Step, s': State, w: nat)
    requires Next(s, step, s') && Leaving(s, w)
    ensures Leaving(s', w)
  {
    match step
    case WorkerRuns(v, more) => OthersLeft(s, v, more, s');
    case ClientRuns(c) => ClientOnWorker(s, c, s', w);
    case _ =>
  }

  lemma {:induction false} RunKeepsLeaving(states: seq<State>, steps: seq<Step>, n: nat, a: nat, b: nat, w: nat)
    requires n <= |steps| < |states| && Run(states, steps, n) && a <= b <= n && Leaving(states[a], w)
    ensures Leaving(states[b], w)
    decreases b
  {
    if a < b {
      RunKeepsLeaving(states, steps, n, a, b - 1, w);
      StepKeepsLeaving(states[b - 1], steps[b - 1], states[b], w);
    }
  }

  /** A stopped worker looks at its stack at most once more, so it takes at most one job. */
  lemma StoppedLooksOnce(states: seq<State>, steps: seq<Step>, n: nat, a: nat, b: nat, w: nat)
    requires n <= |steps| < |states| && Run(states, steps, n) && a < b <= n
    requires steps[a].WorkerRuns? && steps[a].w == w && w < |states[a].workers|
    requires states[a].workers[w].stopped && states[a].workers[w].pc.Pop?
    ensures w < |states[b].workers| && !states[b].workers[w].pc.Pop?
  {
    OthersLeft(states[a], w, steps[a].more, states[a + 1]);
    RunKeepsLeaving(states, steps, n, a + 1, b, w);
  }

  /** The workers a joining client has already waited for are gone. */
  ghost predicate Joined(s: State) {
    forall c, w :: 0 <= c < |s.clients| && s.clients[c].Join? && 0 <= w < |s.workers| && w < s.clients[c].i ==>
      s.workers[w].pc.Exited?
  }

  lemma GoneStay(s: State, step: Step, s': State, w: nat)
    requires Next(s, step, s') && w < |s.workers| && s.workers[w].pc.Exited?
    ensures |s'.workers| == |s.workers| && s'.workers[w].pc.Exited?
  {
    match step
    case WorkerRuns(v, more) => OthersLeft(s, v, more, s');
    case ClientRuns(c) => ClientOnWorker(s, c, s', w);
    case _ =>
  }

  lemma OneJoins(s: State, c: nat, s': State, w: nat)
    requires Joined(s) && c < |s.clients| && ClientActs(s, c, s') && w < |s.workers|
    ensures |s'.clients| == |s.clients|
    ensures s'.clients[c].Join? && w < s'.clients[c].i ==> s.workers[w].pc.Exited?
  {
  }

  lemma StepKeepsJoined(s: State, step: Step, s': State)
    requires Joined(s) && Next(s, step, s')
    ensures Joined(s')
  {
    WorkersStay(s, step, s');
    forall c, w | 0 <= c < |s'.clients| && s'.clients[c].Join? && 0 <= w < |s'.workers| && w < s'.clients[c].i
      ensures s'.workers[w].pc.Exited?
    {
      if step.ClientRuns? {
        ClientSizes(s, step.c, s');
        OneJoins(s, step.c, s', w);
      } else {
        SameJoin(s, step, s', c);
      }
      GoneStay(s, step, s', w);
    }
  }

  lemma SameJoin(s: State, step: Step, s': State, c: nat)
    requires Next(s, step, s') && !step.ClientRuns? && c < |s'.clients| && s'.clients[c].Join?
    ensures |s'.clients| == |s.clients| && s.clients[c] == s'.clients[c]
  {
    if step.WorkerRuns? { OthersLeft(s, step.w, step.more, s'); }
  }

  lemma {:induction false} RunKeepsJoined(states: seq<State>, steps: seq<Step>, n: nat)
    requires n <= |steps| < |states| && Run(states, steps, n)
    ensures Joined(states[n])
  {
    if n > 0 {
      RunKeepsJoined(states, steps, n - 1);
      StepKeepsJoined(states[n - 1], steps[n - 1], states[n]);
    }
  }

  /** When stop_workers returns, every worker is gone: none takes another step. */
  lemma StopWaitsForAll(states: seq<State>, steps: seq<Step>, n: nat, c: nat)
    requires n < |steps| < |states| && Run(states, steps, n + 1) && steps[n] == ClientRuns(c)
    requires c < |states[n].clients| && states[n].clients[c].Join? && states[n + 1].clients[c].Outside?
    ensures forall w :: 0 <= w < |states[n].workers| ==> states[n].workers[w].pc.Exited?
  {
    RunKeepsJoined(states, steps, n);
  }
}
