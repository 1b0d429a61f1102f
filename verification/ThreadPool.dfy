/** The thread pool: workers with a work stack and an awaiter each, clients that post
    jobs, wait for idle and stop the pool, interleaved step by step. Every atomic
    access and every critical section of an awaiter is one step. */
module ThreadPool {

  type Job(==, !new, 00)

  /** Where a thread stands in awaiter::wait_and_reset. */
  datatype Waiting = Fast | Lock | Asleep | Woken | Clear

  datatype WorkerPC =
    | Top
    | Pop
    | Execute(j: Job)
    | Again(j: Job)
    | Complete(j: Job)
    | Uncount(j: Job)
    | Recheck
    | SetIdle
    | NotifyIdle
    | Wait(at: Waiting)
    | ExitSet
    | ExitNotify
    | Exited

  datatype Worker = Worker(stack: seq<Job>, stopped: bool, flag: bool, pc: WorkerPC)

  datatype ClientPC =
    | Outside
    | Index(j: Job)
    | Wrap(j: Job)
    | Offer(j: Job, i: nat)
    | Push(j: Job, i: nat)
    | SetWork(i: nat)
    | NotifyWork(i: nat)
    | Count
    | StopStore(i: nat)
    | StopSet(i: nat)
    | StopNotify(i: nat)
    | Join(i: nat)
    | Load
    | Idle(at: Waiting)

  /** What next() said about a job. */
  datatype Answer = Answer(j: Job, more: bool)

  /** accepted, ran, answers and completed record what happened to the jobs so far: every
      execution, and every answer of next(). The counter is an int: a worker may subtract
      before the poster has added. */
  datatype State = State(
    workers: seq<Worker>, clients: seq<ClientPC>, next: nat, counter: int, idle: bool,
    accepted: set<Job>, ran: multiset<Job>, answers: multiset<Answer>, completed: set<Job>)

  datatype Step =
    | WorkerRuns(w: nat, more: bool)
    | WorkerWakes(w: nat)
    | Post(c: nat, j: Job)
    | StopAll(c: nat)
    | AwaitIdle(c: nat)
    | ClientRuns(c: nat)
    | ClientWakes(c: nat)

  /** wait: the unlocked look at the flag, then the look under the lock. */
  function Look(at: Waiting, flag: bool): Waiting {
    if flag then Clear
    else if at.Fast? then Lock
    else Asleep
  }

  /** notify_all on the idle awaiter. */
  function WakeClients(clients: seq<ClientPC>): (r: seq<ClientPC>)
    ensures |r| == |clients|
    ensures forall c :: 0 <= c < |clients| ==> r[c] == if clients[c] == Idle(Asleep) then Idle(Woken) else clients[c]
  {
    seq(|clients|, c requires 0 <= c < |clients| => if clients[c] == Idle(Asleep) then Idle(Woken) else clients[c])
  }

  /** notify_all on a worker's awaiter. */
  function Notified(k: Worker): Worker {
    if k.pc == Wait(Asleep) then k.(pc := Wait(Woken)) else k
  }

  /** Only a worker asleep or gone has no step of its own. */
  predicate CanRun(pc: WorkerPC) {
    pc != Wait(Asleep) && !pc.Exited?
  }

  /** What one step of a worker does to the worker. The answer of work->next() is arbitrary,
      and once stopped the worker does not ask. */
  function Moved(k: Worker, more: bool): Worker
    requires CanRun(k.pc)
  {
    match k.pc
    case Top => k.(pc := if k.stopped then ExitSet else Pop)
    case Pop => if k.stack == [] then k.(pc := Recheck) else k.(stack := k.stack[1..], pc := Execute(k.stack[0]))
    case Execute(j) => k.(pc := Again(j))
    case Again(j) => k.(pc := if !k.stopped && more then Execute(j) else Complete(j))
    case Complete(j) => k.(pc := Uncount(j))
    case Uncount(_) => k.(pc := Top)
    case Recheck => k.(pc := if k.stopped then Top else SetIdle)
    case SetIdle => k.(pc := NotifyIdle)
    case NotifyIdle => k.(pc := Wait(Fast))
    case Wait(Clear) => k.(flag := false, pc := Top)
    case Wait(at) => k.(pc := Wait(Look(at, k.flag)))
    case ExitSet => k.(pc := ExitNotify)
    case ExitNotify => k.(pc := Exited)
  }

  /** And to everything else. */
  function WorkerResult(s: State, w: nat, more: bool): State
    requires w < |s.workers| && CanRun(s.workers[w].pc)
  {
    var k := s.workers[w];
    var t := s.(workers := s.workers[w := Moved(k, more)]);
    match k.pc
    case Execute(j) => t.(ran := s.ran + multiset{j})
    case Again(j) => if k.stopped then t else t.(answers := s.answers + multiset{Answer(j, more)})
    case Complete(j) => t.(completed := s.completed + {j})
    case Uncount(_) => t.(counter := s.counter - 1)
    case SetIdle => t.(idle := true)
    case NotifyIdle => t.(clients := WakeClients(s.clients))
    case ExitSet => t.(idle := true)
    case ExitNotify => t.(clients := WakeClients(s.clients))
    case _ => t
  }

  ghost predicate WorkerActs(s: State, w: nat, more: bool, s': State)
    requires w < |s.workers|
  {
    CanRun(s.workers[w].pc) && s' == WorkerResult(s, w, more)
  }

  /** One step of a client inside post_work, stop_workers or wait_for_idle. */
  ghost predicate ClientActs(s: State, c: nat, s': State)
    requires c < |s.clients|
  {
    var n := |s.workers|;
    var moved := (p: ClientPC) => s.(clients := s.clients[c := p]);
    match s.clients[c]
    case Outside => false
    case Index(j) => s' == moved(if s.next >= n then Wrap(j) else Offer(j, s.next)).(next := s.next + 1)
    case Wrap(j) => s' == moved(Offer(j, 0)).(next := 0)
    case Offer(j, i) => i < n && s' == moved(if s.workers[i].stopped then Outside else Push(j, i))
    case Push(j, i) =>
      i < n && s' == moved(SetWork(i)).(
        workers := s.workers[i := s.workers[i].(stack := [j] + s.workers[i].stack)], accepted := s.accepted + {j})
    case SetWork(i) => i < n && s' == moved(NotifyWork(i)).(workers := s.workers[i := s.workers[i].(flag := true)])
    case NotifyWork(i) => i < n && s' == moved(Count).(workers := s.workers[i := Notified(s.workers[i])])
    case Count => s' == moved(Outside).(counter := s.counter + 1)
    case StopStore(i) =>
      s' == if i >= n then moved(Join(0))
            else moved(StopSet(i)).(workers := s.workers[i := s.workers[i].(stopped := true)])
    case StopSet(i) => i < n && s' == moved(StopNotify(i)).(workers := s.workers[i := s.workers[i].(flag := true)])
    case StopNotify(i) => i < n && s' == moved(StopStore(i + 1)).(workers := s.workers[i := Notified(s.workers[i])])
    case Join(i) => if i >= n then s' == moved(Outside) else s.workers[i].pc.Exited? && s' == moved(Join(i + 1))
    case Load => s' == moved(if s.counter == 0 then Outside else Idle(Fast))
    case Idle(Clear) => s' == moved(Load).(idle := false)
    case Idle(Asleep) => false
    case Idle(at) => s' == moved(Idle(Look(at, s.idle)))
  }

  /** The job a client is about to post. */
  function Offered(p: ClientPC): set<Job> {
    match p
    case Index(j) => {j}
    case Wrap(j) => {j}
    case Offer(j, _) => {j}
    case Push(j, _) => {j}
    case _ => {}
  }

  /** Jobs are posted by their only owner: each at most once. */
  ghost predicate Unposted(s: State, j: Job) {
    j !in s.accepted && forall c :: 0 <= c < |s.clients| ==> j !in Offered(s.clients[c])
  }

  ghost predicate Next(s: State, step: Step, s': State) {
    match step
    case WorkerRuns(w, more) => w < |s.workers| && WorkerActs(s, w, more, s')
    case WorkerWakes(w) =>
      w < |s.workers| && s.workers[w].pc == Wait(Asleep) &&
      s' == s.(workers := s.workers[w := s.workers[w].(pc := Wait(Woken))])
    case Post(c, j) =>
      c < |s.clients| && s.clients[c].Outside? && Unposted(s, j) && s' == s.(clients := s.clients[c := Index(j)])
    case StopAll(c) => c < |s.clients| && s.clients[c].Outside? && s' == s.(clients := s.clients[c := StopStore(0)])
    case AwaitIdle(c) => c < |s.clients| && s.clients[c].Outside? && s' == s.(clients := s.clients[c := Load])
    case ClientRuns(c) => c < |s.clients| && ClientActs(s, c, s')
    case ClientWakes(c) =>
      c < |s.clients| && s.clients[c] == Idle(Asleep) && s' == s.(clients := s.clients[c := Idle(Woken)])
  }

  ghost predicate Init(s: State) {
    && |s.workers| > 0
    && (forall w :: 0 <= w < |s.workers| ==> s.workers[w] == Worker([], false, false, Top))
    && (forall c :: 0 <= c < |s.clients| ==> s.clients[c] == Outside)
    && s.next == 0 && s.counter == 0 && !s.idle
    && s.accepted == {} && s.ran == multiset{} && s.answers == multiset{} && s.completed == {}
  }

  /** A run: each of the first n steps leads from one state to the next. */
  ghost predicate Run(states: seq<State>, steps: seq<Step>, n: nat)
    requires n <= |steps| < |states|
  {
    Init(states[0]) && forall m :: 0 <= m < n ==> Next(states[m], steps[m], states[m + 1])
  }

  // ----------------------------------------------------------- no lost wakeup

  ghost predicate Some(clients: seq<ClientPC>, p: ClientPC) {
    exists c :: 0 <= c < |clients| && clients[c] == p
  }

  /** Past the empty pop, on the way into the wait or in it. */
  predicate Settling(pc: WorkerPC) {
    pc.SetIdle? || pc.NotifyIdle? || (pc.Wait? && pc.at != Clear)
  }

  /** A worker that settles down with its flag clear although there is work, or a
      stop, is about to be told; and so is one asleep with its flag set. */
  ghost predicate Told(k: Worker, clients: seq<ClientPC>, w: nat) {
    && ((Settling(k.pc) || k.pc.Recheck?) && !k.flag && k.stack != [] ==> Some(clients, SetWork(w)))
    && (Settling(k.pc) && !k.flag && k.stopped ==> Some(clients, StopSet(w)))
    && (k.pc == Wait(Asleep) && k.flag ==> Some(clients, NotifyWork(w)) || Some(clients, StopNotify(w)))
  }

  /** A client only names workers there are. */
  predicate InRange(p: ClientPC, n: nat) {
    match p
    case Offer(_, i) => i < n
    case Push(_, i) => i < n
    case SetWork(i) => i < n
    case NotifyWork(i) => i < n
    case StopSet(i) => i < n
    case StopNotify(i) => i < n
    case _ => true
  }

  /** How many workers, from the first, a stopping client has already stopped. */
  function StoppedBy(p: ClientPC, n: nat): nat {
    match p
    case StopStore(i) => if i < n then i else n
    case StopSet(i) => i + 1
    case StopNotify(i) => i + 1
    case Join(_) => n
    case _ => 0
  }

  ghost predicate ClientOk(s: State, c: nat)
    requires c < |s.clients|
  {
    && InRange(s.clients[c], |s.workers|)
    && (forall w :: 0 <= w < |s.workers| && w < StoppedBy(s.clients[c], |s.workers|) ==> s.workers[w].stopped)
    && (s.clients[c] == Idle(Asleep) && s.idle ==> Announcing(s.workers))
  }

  /** Some worker has set the idle flag and not yet notified. */
  ghost predicate Announcing(workers: seq<Worker>) {
    exists w :: 0 <= w < |workers| && (workers[w].pc.NotifyIdle? || workers[w].pc.ExitNotify?)
  }

  ghost predicate Inv(s: State) {
    && |s.workers| > 0
    && (forall w :: 0 <= w < |s.workers| ==> Told(s.workers[w], s.clients, w))
    && (forall c :: 0 <= c < |s.clients| ==> ClientOk(s, c))
  }

  lemma SomeKept(clients: seq<ClientPC>, c: nat, p: ClientPC, x: ClientPC)
    requires c < |clients|
    ensures Some(clients, x) && clients[c] != x ==> Some(clients[c := p], x)
    ensures Some(clients[c := p], p)
  {
    if Some(clients, x) && clients[c] != x {
      var d :| 0 <= d < |clients| && clients[d] == x;
      assert clients[c := p][d] == x;
    }
    assert clients[c := p][c] == p;
  }

  lemma SomeWoken(clients: seq<ClientPC>, x: ClientPC)
    requires Some(clients, x) && x != Idle(Asleep)
    ensures Some(WakeClients(clients), x)
  {
    var d :| 0 <= d < |clients| && clients[d] == x;
    assert WakeClients(clients)[d] == x;
  }

  /** Waking the clients that wait for idle tells the workers no less. */
  lemma ToldDespiteWake(k: Worker, clients: seq<ClientPC>, w: nat)
    requires Told(k, clients, w)
    ensures Told(k, WakeClients(clients), w)
  {
    if Some(clients, SetWork(w)) { SomeWoken(clients, SetWork(w)); }
    if Some(clients, StopSet(w)) { SomeWoken(clients, StopSet(w)); }
    if Some(clients, NotifyWork(w)) { SomeWoken(clients, NotifyWork(w)); }
    if Some(clients, StopNotify(w)) { SomeWoken(clients, StopNotify(w)); }
  }

  lemma MoverTold(k: Worker, more: bool, clients: seq<ClientPC>, w: nat)
    requires CanRun(k.pc) && Told(k, clients, w)
    ensures Told(Moved(k, more), clients, w)
  {
  }

  lemma OthersLeft(s: State, w: nat, more: bool, s': State)
    requires w < |s.workers| && WorkerActs(s, w, more, s')
    ensures s'.workers == s.workers[w := Moved(s.workers[w], more)]
    ensures s'.clients == s.clients || s'.clients == WakeClients(s.clients)
  {
  }

  lemma WorkerKeepsTold(s: State, w: nat, more: bool, s': State)
    requires Inv(s) && w < |s.workers| && WorkerActs(s, w, more, s')
    ensures |s'.workers| == |s.workers|
    ensures forall v :: 0 <= v < |s'.workers| ==> Told(s'.workers[v], s'.clients, v)
  {
    assert Told(s.workers[w], s.clients, w);
    MoverTold(s.workers[w], more, s.clients, w);
    OthersLeft(s, w, more, s');
    forall v | 0 <= v < |s'.workers| ensures Told(s'.workers[v], s'.clients, v) {
      ToldDespiteWake(s'.workers[v], s.clients, v);
    }
  }

  lemma WorkerKeepsClients(s: State, w: nat, more: bool, s': State)
    requires Inv(s) && w < |s.workers| && WorkerActs(s, w, more, s')
    ensures forall c :: 0 <= c < |s'.clients| ==> ClientOk(s', c)
  {
    assert s'.clients == s.clients || s'.clients == WakeClients(s.clients);
    forall c | 0 <= c < |s'.clients| ensures ClientOk(s', c) {
      assert ClientOk(s, c);
      if s'.clients[c] == Idle(Asleep) && s'.idle {
        assert s'.clients[c] == s.clients[c];
        if s.idle {
          var v :| 0 <= v < |s.workers| && (s.workers[v].pc.NotifyIdle? || s.workers[v].pc.ExitNotify?);
          assert v != w;
          assert s'.workers[v] == s.workers[v];
        } else {
          assert s'.workers[w].pc.NotifyIdle? || s'.workers[w].pc.ExitNotify?;
        }
      }
    }
  }

  lemma ClientSizes(s: State, c: nat, s': State)
    requires c < |s.clients| && ClientActs(s, c, s')
    ensures |s'.workers| == |s.workers| && |s'.clients| == |s.clients|
    ensures s'.clients == s.clients[c := s'.clients[c]]
  {
  }

  lemma WorkersStay(s: State, step: Step, s': State)
    requires Next(s, step, s')
    ensures |s'.workers| == |s.workers|
  {
    if step.ClientRuns? { ClientSizes(s, step.c, s'); }
  }

  lemma ClientTellsWorker(s: State, c: nat, s': State, v: nat)
    requires c < |s.clients| && ClientActs(s, c, s') && v < |s.workers| && Told(s.workers[v], s.clients, v)
    ensures |s'.workers| == |s.workers| && Told(s'.workers[v], s'.clients, v)
  {
    var p' := s'.clients[c];
    assert s'.clients == s.clients[c := p'];
    SomeKept(s.clients, c, p', SetWork(v));
    SomeKept(s.clients, c, p', NotifyWork(v));
    SomeKept(s.clients, c, p', StopSet(v));
    SomeKept(s.clients, c, p', StopNotify(v));
  }

  lemma ClientKeepsTold(s: State, c: nat, s': State)
    requires Inv(s) && c < |s.clients| && ClientActs(s, c, s')
    ensures |s'.workers| == |s.workers|
    ensures forall v :: 0 <= v < |s'.workers| ==> Told(s'.workers[v], s'.clients, v)
  {
    ClientSizes(s, c, s');
    forall v | 0 <= v < |s'.workers| ensures Told(s'.workers[v], s'.clients, v) {
      ClientTellsWorker(s, c, s', v);
    }
  }

  /** No client step clears a stop, and none puts a worker back before its notify. */
  lemma ClientLeavesWorkers(s: State, c: nat, s': State, v: nat)
    requires Inv(s) && c < |s.clients| && ClientActs(s, c, s') && v < |s.workers|
    ensures |s'.workers| == |s.workers| && |s'.clients| == |s.clients|
    ensures s.workers[v].stopped ==> s'.workers[v].stopped
    ensures s'.workers[v].pc == s.workers[v].pc || s.workers[v].pc == Wait(Asleep)
    ensures s.clients[c].StopStore? && s.clients[c].i == v ==> s'.workers[v].stopped
    ensures forall d :: 0 <= d < |s.clients| && d != c ==> s'.clients[d] == s.clients[d]
  {
  }

  /** The client that moves: in range, and no worker counted as stopped before it is. */
  lemma ClientMoves(s: State, c: nat, s': State)
    requires Inv(s) && c < |s.clients| && ClientActs(s, c, s')
    ensures InRange(s'.clients[c], |s.workers|)
    ensures var n, p, p' := |s.workers|, s.clients[c], s'.clients[c];
      || StoppedBy(p', n) <= StoppedBy(p, n)
      || (p.StopStore? && p.i < n && StoppedBy(p', n) == p.i + 1 == StoppedBy(p, n) + 1)
    ensures s'.idle ==> s.idle
    ensures s'.clients[c] == Idle(Asleep) ==> !s'.idle
  {
    assert ClientOk(s, c);
  }

  lemma ClientKeepsClient(s: State, c: nat, s': State, d: nat)
    requires Inv(s) && c < |s.clients| && ClientActs(s, c, s') && d < |s.clients|
    ensures |s'.clients| == |s.clients| && ClientOk(s', d)
  {
    ClientSizes(s, c, s');
    ClientMoves(s, c, s');
    assert ClientOk(s, c) && ClientOk(s, d);
    forall w | 0 <= w < |s'.workers| && w < StoppedBy(s'.clients[d], |s'.workers|) ensures s'.workers[w].stopped {
      ClientLeavesWorkers(s, c, s', w);
    }
    if s'.clients[d] == Idle(Asleep) && s'.idle {
      assert s.idle && s.clients[d] == Idle(Asleep);
      ClientKeepsAnnouncing(s, c, s');
    }
  }

  lemma ClientKeepsAnnouncing(s: State, c: nat, s': State)
    requires Inv(s) && c < |s.clients| && ClientActs(s, c, s') && Announcing(s.workers)
    ensures Announcing(s'.workers)
  {
    var v :| 0 <= v < |s.workers| && (s.workers[v].pc.NotifyIdle? || s.workers[v].pc.ExitNotify?);
    ClientLeavesWorkers(s, c, s', v);
    assert s'.workers[v].pc == s.workers[v].pc;
  }

  lemma ClientKeepsClients(s: State, c: nat, s': State)
    requires Inv(s) && c < |s.clients| && ClientActs(s, c, s')
    ensures forall d :: 0 <= d < |s'.clients| ==> ClientOk(s', d)
  {
    ClientSizes(s, c, s');
    forall d | 0 <= d < |s'.clients| ensures ClientOk(s', d) {
      ClientKeepsClient(s, c, s', d);
    }
  }

  lemma SmallStepKeepsInv(s: State, step: Step, s': State)
    requires Inv(s) && Next(s, step, s') && !step.WorkerRuns? && !step.ClientRuns?
    ensures Inv(s')
  {
    if step.WorkerWakes? {
      forall c | 0 <= c < |s'.clients| ensures ClientOk(s', c) {
        assert ClientOk(s, c);
        if s.clients[c] == Idle(Asleep) && s.idle {
          var v :| 0 <= v < |s.workers| && (s.workers[v].pc.NotifyIdle? || s.workers[v].pc.ExitNotify?);
          assert s'.workers[v] == s.workers[v];
        }
      }
    } else {
      var c := step.c;
      forall v | 0 <= v < |s'.workers| ensures Told(s'.workers[v], s'.clients, v) {
        assert Told(s.workers[v], s.clients, v);
        SomeKept(s.clients, c, s'.clients[c], SetWork(v));
        SomeKept(s.clients, c, s'.clients[c], NotifyWork(v));
        SomeKept(s.clients, c, s'.clients[c], StopSet(v));
        SomeKept(s.clients, c, s'.clients[c], StopNotify(v));
      }
      forall d | 0 <= d < |s'.clients| ensures ClientOk(s', d) {
        assert ClientOk(s, d);
      }
    }
  }

  lemma StepKeepsInv(s: State, step: Step, s': State)
    requires Inv(s) && Next(s, step, s')
    ensures Inv(s')
  {
    match step
    case WorkerRuns(w, more) =>
      WorkerKeepsTold(s, w, more, s');
      WorkerKeepsClients(s, w, more, s');
    case ClientRuns(c) =>
      ClientKeepsTold(s, c, s');
      ClientKeepsClients(s, c, s');
    case _ => SmallStepKeepsInv(s, step, s');
  }

  lemma InitInv(s: State)
    requires Init(s)
    ensures Inv(s)
  {
  }

  lemma {:induction false} RunKeepsInv(states: seq<State>, steps: seq<Step>, n: nat)
    requires n <= |steps| < |states| && Run(states, steps, n)
    ensures Inv(states[n])
  {
    if n == 0 {
      InitInv(states[0]);
    } else {
      RunKeepsInv(states, steps, n - 1);
      StepKeepsInv(states[n - 1], steps[n - 1], states[n]);
    }
  }

  /** No lost wakeup: whenever a worker is blocked although its stack has work or it
      was stopped, some client is still on its way to wake it. With the flag clear that
      client is between its push (or its store) and set(); with the flag set it is
      inside set(), about to notify. */
  lemma NoLostWakeup(states: seq<State>, steps: seq<Step>, n: nat, w: nat)
    requires n <= |steps| < |states| && Run(states, steps, n)
    requires w < |states[n].workers| && states[n].workers[w].pc == Wait(Asleep)
    requires states[n].workers[w].stack != [] || states[n].workers[w].stopped
    ensures !states[n].workers[w].flag ==>
              Some(states[n].clients, SetWork(w)) || Some(states[n].clients, StopSet(w))
    ensures states[n].workers[w].flag ==>
              Some(states[n].clients, NotifyWork(w)) || Some(states[n].clients, StopNotify(w))
  {
    RunKeepsInv(states, steps, n);
    assert Told(states[n].workers[w], states[n].clients, w);
  }

  /** A client that joins the workers has stopped them all, and finds none of them
      asleep unless a client is on its way to wake it. */
  lemma JoinFindsWorkersTold(states: seq<State>, steps: seq<Step>, n: nat, c: nat, w: nat)
    requires n <= |steps| < |states| && Run(states, steps, n)
    requires c < |states[n].clients| && states[n].clients[c].Join? && w < |states[n].workers|
    ensures states[n].workers[w].stopped
    ensures states[n].workers[w].pc == Wait(Asleep) ==>
              exists p :: p in [SetWork(w), NotifyWork(w), StopSet(w), StopNotify(w)] && Some(states[n].clients, p)
  {
    RunKeepsInv(states, steps, n);
    assert ClientOk(states[n], c);
    if states[n].workers[w].pc == Wait(Asleep) {
      NoLostWakeup(states, steps, n, w);
      var told := [SetWork(w), NotifyWork(w), StopSet(w), StopNotify(w)];
      assert told[0] in told && told[1] in told && told[2] in told && told[3] in told;
    }
  }
}
