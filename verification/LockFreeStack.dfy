/** The lock-free linked list: a stack whose head carries a generation counter,
    under any number of threads, compare-and-swaps that may fail spuriously, and
    an allocator that may hand out freed addresses again. */
module LockFreeStack {
  import opened Options

  type Item(==, !new, 00)
  type Addr = int
  type Tid = int

  datatype Ptr = Null | At(addr: Addr)

  datatype Cell = Cell(val: Item, next: Ptr)

  /** node_gen: the head pointer and its generation. */
  datatype Gen = Gen(ptr: Ptr, ctr: nat)

  /** Where a thread stands in emplace_front, pop_and_release_front or release. */
  datatype PC =
    | Idle
    | PushLoad(n: Addr, v: Item)
    | PushLink(n: Addr, v: Item, seen: Gen)
    | PushCas(n: Addr, v: Item, seen: Gen)
    | PopLoad
    | PopNext(seen: Gen)
    | PopCas(seen: Gen, next: Ptr)
    | PopTake(n: Addr)
    | PopFree(n: Addr, val: Item)
    | DrainLoad
    | DrainCas(seen: Gen)
    | DrainWalk(p: Ptr)
    | DrainFree(n: Addr, next: Ptr)

  /** A thread: where it stands and what it has been handed so far. */
  datatype Local = Local(pc: PC, out: seq<Item>)

  datatype State = State(heap: map<Addr, Cell>, head: Gen, threads: map<Tid, Local>)

  /** The atomic steps. Choices the program does not make are arguments: the value
      pushed, the address the allocator picks, what a stale read returns. */
  datatype Step =
    | BeginPush(t: Tid, a: Addr, v: Item)
    | LoadForPush(t: Tid)
    | Link(t: Tid)
    | CasPush(t: Tid)
    | BeginPop(t: Tid)
    | LoadForPop(t: Tid)
    | ReadNext(t: Tid, p: Ptr)
    | CasPop(t: Tid)
    | TakeValue(t: Tid)
    | FreePopped(t: Tid)
    | BeginDrain(t: Tid)
    | LoadForDrain(t: Tid)
    | CasDrain(t: Tid)
    | Visit(t: Tid)
    | FreeVisited(t: Tid)
    | SpuriousFail(t: Tid)

  /** next_alias: the new pointer with the generation of the old head plus one. */
  function NextGen(seen: Gen, p: Ptr): Gen {
    Gen(p, seen.ctr + 1)
  }

  /** What one step of a thread does to the heap, the head and the thread itself. A
      failed compare-and-swap, stale or spurious, goes back to loading the head. */
  datatype After = After(heap: map<Addr, Cell>, head: Gen, l: Local)

  ghost predicate Acts(heap: map<Addr, Cell>, head: Gen, l: Local, step: Step, r: After) {
    var pc := l.pc;
    match step
    case BeginPush(_, a, v) =>
      pc.Idle? && a !in heap && r == After(heap[a := Cell(v, Null)], head, l.(pc := PushLoad(a, v)))
    case LoadForPush(_) =>
      pc.PushLoad? && r == After(heap, head, l.(pc := PushLink(pc.n, pc.v, head)))
    case Link(_) =>
      pc.PushLink? && pc.n in heap &&
      r == After(heap[pc.n := heap[pc.n].(next := pc.seen.ptr)], head, l.(pc := PushCas(pc.n, pc.v, pc.seen)))
    case CasPush(_) =>
      pc.PushCas? &&
      r == if head == pc.seen then After(heap, NextGen(pc.seen, At(pc.n)), l.(pc := Idle))
           else After(heap, head, l.(pc := PushLoad(pc.n, pc.v)))
    case BeginPop(_) =>
      pc.Idle? && r == After(heap, head, l.(pc := PopLoad))
    case LoadForPop(_) =>
      pc.PopLoad? && r == After(heap, head, l.(pc := if head.ptr.Null? then Idle else PopNext(head)))
    case ReadNext(_, p) =>
      // Through an address that is no longer the head anything may be read.
      pc.PopNext? && pc.seen.ptr.At? &&
      (head == pc.seen && pc.seen.ptr.addr in heap ==> p == heap[pc.seen.ptr.addr].next) &&
      r == After(heap, head, l.(pc := PopCas(pc.seen, p)))
    case CasPop(_) =>
      pc.PopCas? && pc.seen.ptr.At? &&
      r == if head == pc.seen then After(heap, NextGen(pc.seen, pc.next), l.(pc := PopTake(pc.seen.ptr.addr)))
           else After(heap, head, l.(pc := PopLoad))
    case TakeValue(_) =>
      pc.PopTake? && pc.n in heap && r == After(heap, head, l.(pc := PopFree(pc.n, heap[pc.n].val)))
    case FreePopped(_) =>
      pc.PopFree? && r == After(heap - {pc.n}, head, Local(Idle, l.out + [pc.val]))
    case BeginDrain(_) =>
      pc.Idle? && r == After(heap, head, l.(pc := DrainLoad))
    case LoadForDrain(_) =>
      pc.DrainLoad? && r == After(heap, head, l.(pc := DrainCas(head)))
    case CasDrain(_) =>
      pc.DrainCas? &&
      r == if head == pc.seen then After(heap, NextGen(pc.seen, Null), l.(pc := DrainWalk(pc.seen.ptr)))
           else After(heap, head, l.(pc := DrainLoad))
    case Visit(_) =>
      pc.DrainWalk? &&
      if pc.p.Null? then r == After(heap, head, l.(pc := Idle))
      else pc.p.addr in heap &&
           r == After(heap, head, Local(DrainFree(pc.p.addr, heap[pc.p.addr].next), l.out + [heap[pc.p.addr].val]))
    case FreeVisited(_) =>
      pc.DrainFree? && r == After(heap - {pc.n}, head, l.(pc := DrainWalk(pc.next)))
    case SpuriousFail(_) =>
      match pc
      case PushCas(n, v, _) => r == After(heap, head, l.(pc := PushLoad(n, v)))
      case PopCas(_, _) => r == After(heap, head, l.(pc := PopLoad))
      case DrainCas(_) => r == After(heap, head, l.(pc := DrainLoad))
      case _ => false
  }

  ghost predicate Next(s: State, step: Step, s': State) {
    && step.t in s.threads && s'.threads.Keys == s.threads.Keys
    && s'.threads == s.threads[step.t := s'.threads[step.t]]
    && Acts(s.heap, s.head, s.threads[step.t], step, After(s'.heap, s'.head, s'.threads[step.t]))
  }

  ghost predicate Init(s: State) {
    && s.heap == map[] && s.head == Gen(Null, 0)
    && forall t :: t in s.threads ==> s.threads[t] == Local(Idle, [])
  }

  // ---------------------------------------------------------------- invariant

  /** Addresses one after the other, as the nodes of a list. */
  datatype Links = End | Node(addr: Addr, rest: Links)

  function Addrs(c: Links): set<Addr> {
    match c
    case End => {}
    case Node(a, rest) => {a} + Addrs(rest)
  }

  predicate NoRepeat(c: Links) {
    match c
    case End => true
    case Node(a, rest) => a !in Addrs(rest) && NoRepeat(rest)
  }

  /** The nodes from p on, following next to the end. */
  ghost predicate Chain(heap: map<Addr, Cell>, p: Ptr, c: Links)
    decreases c
  {
    match c
    case End => p.Null?
    case Node(a, rest) => p == At(a) && a in heap && Chain(heap, heap[a].next, rest)
  }

  function Values(heap: map<Addr, Cell>, c: Links): seq<Item> {
    match c
    case End => []
    case Node(a, rest) => if a in heap then [heap[a].val] + Values(heap, rest) else []
  }

  datatype Owner = Stack | Thread(t: Tid)

  /** Auxiliary, per thread: the chain a draining thread has left, and what the
      thread has removed from the abstract stack. */
  datatype Priv = Priv(rest: Links, took: seq<Item>)

  /** Auxiliary: the chain of the stack, and the one owner of every allocated node. */
  datatype Aux = Aux(chain: Links, owner: map<Addr, Owner>, priv: map<Tid, Priv>)

  /** The nodes a thread holds privately. */
  function Held(pc: PC, rest: Links): Links {
    match pc
    case PushLoad(n, _) => Node(n, End)
    case PushLink(n, _, _) => Node(n, End)
    case PushCas(n, _, _) => Node(n, End)
    case PopTake(n) => Node(n, End)
    case PopFree(n, _) => Node(n, End)
    case DrainWalk(_) => rest
    case DrainFree(n, _) => Node(n, rest)
    case _ => End
  }

  /** A generation seen earlier: current exactly when the counter has not moved. */
  ghost predicate SeenOk(head: Gen, seen: Gen) {
    seen.ctr <= head.ctr && (seen.ctr == head.ctr ==> seen == head)
  }

  /** What a thread knows, at each point of its code. */
  ghost predicate Knows(heap: map<Addr, Cell>, head: Gen, pc: PC, rest: Links) {
    match pc
    case PushLoad(n, v) => n in heap && heap[n].val == v
    case PushLink(n, v, seen) => SeenOk(head, seen) && n in heap && heap[n].val == v
    case PushCas(n, v, seen) => SeenOk(head, seen) && n in heap && heap[n] == Cell(v, seen.ptr)
    case PopNext(seen) => seen.ptr.At? && SeenOk(head, seen)
    case PopCas(seen, next) =>
      && seen.ptr.At? && SeenOk(head, seen)
      && (seen == head ==> seen.ptr.addr in heap && heap[seen.ptr.addr].next == next)
    case DrainCas(seen) => SeenOk(head, seen)
    case DrainWalk(p) => Chain(heap, p, rest)
    case DrainFree(n, next) => Chain(heap, next, rest)
    case _ => true
  }

  /** Values a thread has removed from the stack but not handed out yet. */
  function Due(heap: map<Addr, Cell>, pc: PC, rest: Links): seq<Item> {
    match pc
    case PopTake(n) => if n in heap then [heap[n].val] else []
    case PopFree(n, v) => [v]
    case DrainWalk(_) => Values(heap, rest)
    case DrainFree(_, _) => Values(heap, rest)
    case _ => []
  }

  /** The nodes with owner o are exactly those of c, each once. */
  ghost predicate Owns(owner: map<Addr, Owner>, o: Owner, c: Links) {
    NoRepeat(c) && forall a :: a in Addrs(c) <==> a in owner && owner[a] == o
  }

  ghost predicate ThreadInv(heap: map<Addr, Cell>, head: Gen, owner: map<Addr, Owner>, t: Tid, l: Local, p: Priv) {
    && Owns(owner, Thread(t), Held(l.pc, p.rest))
    && Knows(heap, head, l.pc, p.rest)
    && l.out + Due(heap, l.pc, p.rest) == p.took
  }

  ghost predicate OwnersKnown(threads: map<Tid, Local>, owner: map<Addr, Owner>) {
    forall a :: a in owner && owner[a].Thread? ==> owner[a].t in threads
  }

  /** Every allocated node has exactly one owner, the stack or one thread; the head
      leads through the stack's nodes; every thread's knowledge is right. */
  ghost predicate Inv(s: State, x: Aux) {
    && s.threads.Keys == x.priv.Keys && x.owner.Keys == s.heap.Keys && OwnersKnown(s.threads, x.owner)
    && Owns(x.owner, Stack, x.chain) && Chain(s.heap, s.head.ptr, x.chain)
    && forall t :: t in s.threads ==> ThreadInv(s.heap, s.head, x.owner, t, s.threads[t], x.priv[t])
  }

  // ------------------------------------------------------------------ framing

  /** Two maps that agree on some addresses. */
  ghost predicate Agree<V>(m: map<Addr, V>, m': map<Addr, V>, on: set<Addr>) {
    forall a :: a in on ==> a in m && a in m' && m'[a] == m[a]
  }

  /** Two maps that agree everywhere but at one address. */
  ghost predicate AgreeBut<V>(m: map<Addr, V>, m': map<Addr, V>, n: Addr) {
    forall a :: a != n ==> (a in m <==> a in m') && (a in m ==> m'[a] == m[a])
  }

  lemma {:induction false} ChainFrame(h: map<Addr, Cell>, h': map<Addr, Cell>, p: Ptr, c: Links)
    requires Chain(h, p, c) && Agree(h, h', Addrs(c))
    ensures Chain(h', p, c) && Values(h', c) == Values(h, c)
    decreases c
  {
    if c.Node? {
      assert c.addr in Addrs(c);
      ChainFrame(h, h', h[c.addr].next, c.rest);
    }
  }

  /** The chain is determined by the heap, and so is the abstract stack. */
  lemma {:induction false} ChainUnique(h: map<Addr, Cell>, p: Ptr, c: Links, d: Links)
    requires Chain(h, p, c) && Chain(h, p, d)
    ensures c == d
    decreases c
  {
    if c.Node? {
      ChainUnique(h, h[c.addr].next, c.rest, d.rest);
    }
  }

  /** What an owner has is untouched by a change at a node it does not have. */
  lemma OwnedAgree(owner: map<Addr, Owner>, o: Owner, c: Links, h: map<Addr, Cell>, h': map<Addr, Cell>, n: Addr)
    requires Owns(owner, o, c) && owner.Keys == h.Keys && AgreeBut(h, h', n) && (n in owner ==> owner[n] != o)
    ensures Agree(h, h', Addrs(c))
  {
  }

  lemma OwnsGained(owner: map<Addr, Owner>, o: Owner, c: Links, n: Addr, owner': map<Addr, Owner>)
    requires Owns(owner, o, c) && AgreeBut(owner, owner', n)
    requires n in owner' && owner'[n] == o && (n in owner ==> owner[n] != o)
    ensures Owns(owner', o, Node(n, c))
  {
  }

  lemma OwnsLost(owner: map<Addr, Owner>, o: Owner, c: Links, owner': map<Addr, Owner>)
    requires c.Node? && Owns(owner, o, c) && AgreeBut(owner, owner', c.addr)
    requires c.addr in owner' ==> owner'[c.addr] != o
    ensures Owns(owner', o, c.rest)
  {
  }

  lemma OwnsKept(owner: map<Addr, Owner>, o: Owner, c: Links, n: Addr, owner': map<Addr, Owner>)
    requires Owns(owner, o, c) && AgreeBut(owner, owner', n)
    requires (n in owner ==> owner[n] != o) && (n in owner' ==> owner'[n] != o)
    ensures Owns(owner', o, c)
  {
  }

  /** A thread that holds one node. */
  lemma HoldsOne(owner: map<Addr, Owner>, o: Owner, n: Addr, c: Links)
    requires Owns(owner, o, Node(n, c))
    ensures n in owner && owner[n] == o
  {
    assert n in Addrs(Node(n, c));
  }

  /** A step of thread t leaves other owners' nodes alone, and moves the head only
      to a new generation. */
  ghost predicate Quiet(heap: map<Addr, Cell>, head: Gen, owner: map<Addr, Owner>, t: Tid,
                        heap': map<Addr, Cell>, head': Gen, owner': map<Addr, Owner>)
  {
    && (head' == head || head'.ctr > head.ctr)
    && (forall a :: a in heap && a in owner && owner[a] != Thread(t) ==> a in heap' && heap'[a] == heap[a])
    && (forall a :: a in owner && owner[a] != Thread(t) && owner[a] != Stack ==> a in owner' && owner'[a] == owner[a])
    && (forall a :: a in owner' && owner'[a] != Thread(t) && owner'[a] != Stack ==> a in owner && owner[a] == owner'[a])
  }

  /** A step that only concerns one node: the thread's own or a new one, or, when the
      heap stays as it is, one that moves between the thread and the stack. */
  lemma QuietAt(heap: map<Addr, Cell>, head: Gen, owner: map<Addr, Owner>, t: Tid,
                heap': map<Addr, Cell>, head': Gen, owner': map<Addr, Owner>, n: Addr)
    requires owner.Keys == heap.Keys && AgreeBut(heap, heap', n) && AgreeBut(owner, owner', n)
    requires head' == head || head'.ctr > head.ctr
    requires n in owner ==> owner[n] == Thread(t) || (owner[n] == Stack && heap' == heap)
    requires n in owner' ==> owner'[n] == Thread(t) || owner'[n] == Stack
    ensures Quiet(heap, head, owner, t, heap', head', owner')
  {
  }

  /** A thread's knowledge rests on the nodes it holds and on the top of the stack. */
  lemma KnowsFrame(heap: map<Addr, Cell>, head: Gen, heap': map<Addr, Cell>, head': Gen, pc: PC, rest: Links)
    requires Knows(heap, head, pc, rest) && Agree(heap, heap', Addrs(Held(pc, rest)))
    requires head' == head || head'.ctr > head.ctr
    requires head.ptr.At? ==> Agree(heap, heap', {head.ptr.addr})
    ensures Knows(heap', head', pc, rest) && Due(heap', pc, rest) == Due(heap, pc, rest)
  {
    match pc
    case DrainWalk(q) => ChainFrame(heap, heap', q, rest);
    case DrainFree(n, next) => ChainFrame(heap, heap', next, rest);
    case PopCas(seen, next) => assert head.ptr.At? ==> head.ptr.addr in {head.ptr.addr};
    case PushLoad(n, _) => assert n in Addrs(Node(n, End));
    case PushLink(n, _, _) => assert n in Addrs(Node(n, End));
    case PushCas(n, _, _) => assert n in Addrs(Node(n, End));
    case PopTake(n) => assert n in Addrs(Node(n, End));
    case _ =>
  }

  /** What belongs to another thread, and the stack, are not touched. */
  lemma OthersOwn(heap: map<Addr, Cell>, head: Gen, owner: map<Addr, Owner>, t: Tid,
                  heap': map<Addr, Cell>, head': Gen, owner': map<Addr, Owner>, u: Tid, c: Links)
    requires Quiet(heap, head, owner, t, heap', head', owner') && owner.Keys == heap.Keys
    requires u != t && Owns(owner, Thread(u), c)
    ensures Owns(owner', Thread(u), c) && Agree(heap, heap', Addrs(c))
  {
  }

  lemma TopKept(heap: map<Addr, Cell>, head: Gen, owner: map<Addr, Owner>, t: Tid,
                heap': map<Addr, Cell>, head': Gen, owner': map<Addr, Owner>, chain: Links)
    requires Quiet(heap, head, owner, t, heap', head', owner')
    requires Owns(owner, Stack, chain) && Chain(heap, head.ptr, chain)
    ensures head.ptr.At? ==> Agree(heap, heap', {head.ptr.addr})
  {
    if chain.Node? {
      HoldsOne(owner, Stack, chain.addr, chain.rest);
    }
  }

  /** So every other thread's invariant survives. */
  lemma OthersKeep(heap: map<Addr, Cell>, head: Gen, owner: map<Addr, Owner>, t: Tid,
                   heap': map<Addr, Cell>, head': Gen, owner': map<Addr, Owner>, u: Tid, l: Local, p: Priv)
    requires Quiet(heap, head, owner, t, heap', head', owner') && owner.Keys == heap.Keys
    requires head.ptr.At? ==> Agree(heap, heap', {head.ptr.addr})
    requires u != t && ThreadInv(heap, head, owner, u, l, p)
    ensures ThreadInv(heap', head', owner', u, l, p)
  {
    OthersOwn(heap, head, owner, t, heap', head', owner', u, Held(l.pc, p.rest));
    KnowsFrame(heap, head, heap', head', l.pc, p.rest);
  }

  /** Putting a step of thread t together. */
  lemma Assemble(s: State, x: Aux, t: Tid, s': State, x': Aux)
    requires Inv(s, x) && t in s.threads
    requires s'.threads.Keys == s.threads.Keys && s'.threads == s.threads[t := s'.threads[t]]
    requires x'.priv.Keys == x.priv.Keys && x'.priv == x.priv[t := x'.priv[t]]
    requires Quiet(s.heap, s.head, x.owner, t, s'.heap, s'.head, x'.owner) && x'.owner.Keys == s'.heap.Keys
    requires Owns(x'.owner, Stack, x'.chain) && Chain(s'.heap, s'.head.ptr, x'.chain)
    requires ThreadInv(s'.heap, s'.head, x'.owner, t, s'.threads[t], x'.priv[t])
    ensures Inv(s', x')
  {
    TopKept(s.heap, s.head, x.owner, t, s'.heap, s'.head, x'.owner, x.chain);
    forall u | u in s'.threads
      ensures ThreadInv(s'.heap, s'.head, x'.owner, u, s'.threads[u], x'.priv[u])
    {
      if u != t {
        OthersKeep(s.heap, s.head, x.owner, t, s'.heap, s'.head, x'.owner, u, s.threads[u], x.priv[u]);
      }
    }
  }

  // ------------------------------------------------------------ single steps

  /** The abstract stack, top first. */
  function Abs(s: State, x: Aux): seq<Item> {
    Values(s.heap, x.chain)
  }

  /** A step that leaves heap and head alone, and every owner what it has. */
  lemma OwnStep(s: State, x: Aux, t: Tid, s': State, p: Priv)
    requires Inv(s, x) && t in s.threads && s'.heap == s.heap && s'.head == s.head
    requires s'.threads.Keys == s.threads.Keys && s'.threads == s.threads[t := s'.threads[t]]
    requires ThreadInv(s.heap, s.head, x.owner, t, s'.threads[t], p)
    ensures Inv(s', x.(priv := x.priv[t := p]))
  {
    Assemble(s, x, t, s', x.(priv := x.priv[t := p]));
  }

  /** A step that only moves the thread on, keeping what it holds and owes. */
  lemma MoveStep(s: State, x: Aux, t: Tid, s': State)
    requires Inv(s, x) && t in s.threads && s'.heap == s.heap && s'.head == s.head
    requires s'.threads.Keys == s.threads.Keys && s'.threads == s.threads[t := s'.threads[t]]
    requires s'.threads[t].out == s.threads[t].out
    requires Held(s'.threads[t].pc, x.priv[t].rest) == Held(s.threads[t].pc, x.priv[t].rest)
    requires Due(s.heap, s'.threads[t].pc, x.priv[t].rest) == Due(s.heap, s.threads[t].pc, x.priv[t].rest)
    requires Knows(s.heap, s.head, s'.threads[t].pc, x.priv[t].rest)
    ensures Inv(s', x)
  {
    assert ThreadInv(s.heap, s.head, x.owner, t, s.threads[t], x.priv[t]);
    Assemble(s, x, t, s', x);
  }

  /** A step at one node that is, or becomes, the thread's: the stack stays as it is. */
  lemma NodeStep(s: State, x: Aux, t: Tid, n: Addr, s': State, x': Aux)
    requires Inv(s, x) && t in s.threads && s'.head == s.head && x'.owner.Keys == s'.heap.Keys
    requires s'.threads.Keys == s.threads.Keys && s'.threads == s.threads[t := s'.threads[t]]
    requires x' == x.(owner := x'.owner) && AgreeBut(s.heap, s'.heap, n) && AgreeBut(x.owner, x'.owner, n)
    requires (n in x.owner ==> x.owner[n] == Thread(t)) && (n in x'.owner ==> x'.owner[n] == Thread(t))
    requires ThreadInv(s'.heap, s'.head, x'.owner, t, s'.threads[t], x.priv[t])
    ensures Inv(s', x') && Abs(s', x') == Abs(s, x)
  {
    QuietAt(s.heap, s.head, x.owner, t, s'.heap, s'.head, x'.owner, n);
    OwnsKept(x.owner, Stack, x.chain, n, x'.owner);
    OwnedAgree(x.owner, Stack, x.chain, s.heap, s'.heap, n);
    ChainFrame(s.heap, s'.heap, s.head.ptr, x.chain);
    Assemble(s, x, t, s', x');
  }

  lemma BeginPushStep(s: State, x: Aux, t: Tid, a: Addr, v: Item, s': State, x': Aux)
    requires Inv(s, x) && Next(s, BeginPush(t, a, v), s')
    requires x' == x.(owner := x.owner[a := Thread(t)])
    ensures Inv(s', x') && Abs(s', x') == Abs(s, x)
  {
    assert a !in x.owner && Held(s.threads[t].pc, x.priv[t].rest) == End;
    OwnsGained(x.owner, Thread(t), End, a, x'.owner);
    NodeStep(s, x, t, a, s', x');
  }

  lemma LinkStep(s: State, x: Aux, t: Tid, s': State)
    requires Inv(s, x) && Next(s, Link(t), s')
    ensures Inv(s', x) && Abs(s', x) == Abs(s, x)
  {
    var n := s.threads[t].pc.n;
    assert ThreadInv(s.heap, s.head, x.owner, t, s.threads[t], x.priv[t]);
    HoldsOne(x.owner, Thread(t), n, End);
    NodeStep(s, x, t, n, s', x);
  }

  /** A push takes effect: the node goes from its thread to the top of the stack. */
  lemma PushStep(s: State, x: Aux, t: Tid, s': State, x': Aux)
    requires Inv(s, x) && Next(s, CasPush(t), s') && s.threads[t].pc.seen == s.head
    requires var n := s.threads[t].pc.n; x' == x.(chain := Node(n, x.chain), owner := x.owner[n := Stack])
    ensures Inv(s', x') && Abs(s', x') == [s.threads[t].pc.v] + Abs(s, x)
  {
    var n := s.threads[t].pc.n;
    assert ThreadInv(s.heap, s.head, x.owner, t, s.threads[t], x.priv[t]);
    HoldsOne(x.owner, Thread(t), n, End);
    OwnsLost(x.owner, Thread(t), Node(n, End), x'.owner);
    OwnsGained(x.owner, Stack, x.chain, n, x'.owner);
    QuietAt(s.heap, s.head, x.owner, t, s'.heap, s'.head, x'.owner, n);
    Assemble(s, x, t, s', x');
  }

  lemma TopTaken(heap: map<Addr, Cell>, head: Gen, owner: map<Addr, Owner>, t: Tid, l: Local, p: Priv, a: Addr)
    requires a in heap && Owns(owner, Thread(t), Node(a, End)) && l.out == p.took
    ensures ThreadInv(heap, head, owner, t, l.(pc := PopTake(a)), p.(took := p.took + [heap[a].val]))
  {
  }

  /** A pop takes effect: the top node goes to the popping thread, and the head
      becomes its true successor, whatever was read through stale addresses before. */
  lemma PopStep(s: State, x: Aux, t: Tid, s': State, x': Aux)
    requires Inv(s, x) && Next(s, CasPop(t), s') && s.threads[t].pc.seen == s.head
    requires x.chain.Node? && x.chain.addr in s.heap ==>
               x' == Aux(x.chain.rest, x.owner[x.chain.addr := Thread(t)],
                         x.priv[t := x.priv[t].(took := x.priv[t].took + [s.heap[x.chain.addr].val])])
    ensures x.chain.Node? && x.chain.addr in s.heap && Inv(s', x')
    ensures s'.head.ptr == s.heap[x.chain.addr].next
    ensures Abs(s, x) == [s.heap[x.chain.addr].val] + Abs(s', x')
  {
    assert ThreadInv(s.heap, s.head, x.owner, t, s.threads[t], x.priv[t]);
    var a := x.chain.addr;
    assert s.head.ptr == At(a);
    HoldsOne(x.owner, Stack, a, x.chain.rest);
    OwnsLost(x.owner, Stack, x.chain, x'.owner);
    OwnsGained(x.owner, Thread(t), End, a, x'.owner);
    QuietAt(s.heap, s.head, x.owner, t, s'.heap, s'.head, x'.owner, a);
    TopTaken(s.heap, s'.head, x'.owner, t, s.threads[t], x.priv[t], a);
    Assemble(s, x, t, s', x');
  }

  /** Giving a node back: it was allocated and the thread's alone, so it is freed
      once, and nothing else is disturbed. */
  lemma FreeStep(s: State, x: Aux, t: Tid, n: Addr, s': State, x': Aux)
    requires Inv(s, x) && t in s.threads && s'.head == s.head && s'.heap == s.heap - {n}
    requires s'.threads.Keys == s.threads.Keys && s'.threads == s.threads[t := s'.threads[t]]
    requires var p, pc, l' := x.priv[t], s.threads[t].pc, s'.threads[t];
             && Held(pc, p.rest) == Node(n, Held(l'.pc, p.rest))
             && Knows(s'.heap, s.head, l'.pc, p.rest)
             && l'.out + Due(s'.heap, l'.pc, p.rest) == p.took
    requires x' == x.(owner := x.owner - {n})
    ensures n in s.heap && x.owner[n] == Thread(t) && n !in Addrs(x.chain)
    ensures Inv(s', x') && Abs(s', x') == Abs(s, x)
  {
    var held := Held(s.threads[t].pc, x.priv[t].rest);
    HoldsOne(x.owner, Thread(t), n, held.rest);
    OwnsLost(x.owner, Thread(t), held, x'.owner);
    NodeStep(s, x, t, n, s', x');
  }

  lemma FreePoppedStep(s: State, x: Aux, t: Tid, s': State, x': Aux)
    requires Inv(s, x) && Next(s, FreePopped(t), s')
    requires x' == x.(owner := x.owner - {s.threads[t].pc.n})
    ensures Inv(s', x') && Abs(s', x') == Abs(s, x)
  {
    assert ThreadInv(s.heap, s.head, x.owner, t, s.threads[t], x.priv[t]);
    FreeStep(s, x, t, s.threads[t].pc.n, s', x');
  }

  lemma FreeVisitedStep(s: State, x: Aux, t: Tid, s': State, x': Aux)
    requires Inv(s, x) && Next(s, FreeVisited(t), s')
    requires x' == x.(owner := x.owner - {s.threads[t].pc.n})
    ensures Inv(s', x') && Abs(s', x') == Abs(s, x)
  {
    var n, rest := s.threads[t].pc.n, x.priv[t].rest;
    assert ThreadInv(s.heap, s.head, x.owner, t, s.threads[t], x.priv[t]);
    RestKept(x.owner, Thread(t), n, rest, s.heap, s'.heap, s.threads[t].pc.next);
    FreeStep(s, x, t, n, s', x');
  }

  lemma RestKept(owner: map<Addr, Owner>, o: Owner, n: Addr, rest: Links,
                 h: map<Addr, Cell>, h': map<Addr, Cell>, p: Ptr)
    requires Owns(owner, o, Node(n, rest)) && owner.Keys == h.Keys && h' == h - {n} && Chain(h, p, rest)
    ensures Chain(h', p, rest) && Values(h', rest) == Values(h, rest)
  {
    assert Agree(h, h', Addrs(rest)) by { OthersAgree(owner, o, n, rest, h, h'); }
    ChainFrame(h, h', p, rest);
  }

  lemma OthersAgree(owner: map<Addr, Owner>, o: Owner, n: Addr, rest: Links, h: map<Addr, Cell>, h': map<Addr, Cell>)
    requires Owns(owner, o, Node(n, rest)) && owner.Keys == h.Keys && h' == h - {n}
    ensures Agree(h, h', Addrs(rest))
  {
    forall a | a in Addrs(rest) ensures a in h && a in h' && h'[a] == h[a] {
      assert a in Addrs(Node(n, rest)) && a != n;
    }
  }

  /** Everything the stack had goes to thread t. */
  function Handed(owner: map<Addr, Owner>, t: Tid): map<Addr, Owner> {
    map a | a in owner :: if owner[a] == Stack then Thread(t) else owner[a]
  }

  lemma HandedOver(heap: map<Addr, Cell>, head: Gen, owner: map<Addr, Owner>, t: Tid, c: Links, head': Gen)
    requires Owns(owner, Stack, c) && Owns(owner, Thread(t), End) && (head' == head || head'.ctr > head.ctr)
    ensures Owns(Handed(owner, t), Thread(t), c) && Owns(Handed(owner, t), Stack, End)
    ensures Quiet(heap, head, owner, t, heap, head', Handed(owner, t))
  {
    assert forall a :: a in owner ==> a !in Addrs(End);
  }

  lemma AllTaken(heap: map<Addr, Cell>, head: Gen, owner: map<Addr, Owner>, t: Tid, l: Local, p: Priv, q: Ptr, c: Links)
    requires Owns(owner, Thread(t), c) && Chain(heap, q, c) && l.out == p.took
    ensures ThreadInv(heap, head, owner, t, l.(pc := DrainWalk(q)), Priv(c, p.took + Values(heap, c)))
  {
  }

  /** A drain takes effect: the whole chain goes to the draining thread. */
  lemma DrainStep(s: State, x: Aux, t: Tid, s': State, x': Aux)
    requires Inv(s, x) && Next(s, CasDrain(t), s') && s.threads[t].pc.seen == s.head
    requires x' == Aux(End, Handed(x.owner, t), x.priv[t := Priv(x.chain, x.priv[t].took + Abs(s, x))])
    ensures Inv(s', x') && Abs(s', x') == []
  {
    assert ThreadInv(s.heap, s.head, x.owner, t, s.threads[t], x.priv[t]);
    HandedOver(s.heap, s.head, x.owner, t, x.chain, s'.head);
    AllTaken(s.heap, s'.head, x'.owner, t, s.threads[t], x.priv[t], s.head.ptr, x.chain);
    Assemble(s, x, t, s', x');
  }

  lemma HandsOut(heap: map<Addr, Cell>, head: Gen, owner: map<Addr, Owner>, t: Tid, l: Local, p: Priv)
    requires ThreadInv(heap, head, owner, t, l, p) && l.pc.DrainWalk? && l.pc.p.At?
    ensures p.rest.Node? && p.rest.addr == l.pc.p.addr && p.rest.addr in heap
    ensures var c := heap[p.rest.addr];
      ThreadInv(heap, head, owner, t, Local(DrainFree(p.rest.addr, c.next), l.out + [c.val]), p.(rest := p.rest.rest))
  {
    var v, more := heap[p.rest.addr].val, Values(heap, p.rest.rest);
    assert (l.out + [v]) + more == l.out + ([v] + more);
  }

  /** Handing out the next drained value. */
  lemma VisitStep(s: State, x: Aux, t: Tid, s': State, x': Aux)
    requires Inv(s, x) && Next(s, Visit(t), s') && s.threads[t].pc.p.At?
    requires x.priv[t].rest.Node? ==> x' == x.(priv := x.priv[t := x.priv[t].(rest := x.priv[t].rest.rest)])
    ensures Inv(s', x') && Abs(s', x') == Abs(s, x)
  {
    HandsOut(s.heap, s.head, x.owner, t, s.threads[t], x.priv[t]);
    OwnStep(s, x, t, s', x.priv[t].(rest := x.priv[t].rest.rest));
  }

  // ---------------------------------------------------------- linearizability

  /** The sequential stack: its items, top first, and what each thread got from it. */
  datatype Spec = Spec(stack: seq<Item>, took: map<Tid, seq<Item>>)

  datatype Effect = NoEffect | Pushed(v: Item) | Popped(t: Tid) | Drained(t: Tid)

  ghost predicate Enabled(q: Spec, e: Effect) {
    match e
    case Popped(t) => t in q.took && q.stack != []
    case Drained(t) => t in q.took
    case _ => true
  }

  function Apply(q: Spec, e: Effect): Spec
    requires Enabled(q, e)
  {
    match e
    case NoEffect => q
    case Pushed(v) => q.(stack := [v] + q.stack)
    case Popped(t) => Spec(q.stack[1..], q.took[t := q.took[t] + [q.stack[0]]])
    case Drained(t) => Spec([], q.took[t := q.took[t] + q.stack])
  }

  /** The linearization points: the compare-and-swaps that find the head unchanged. */
  ghost function EffectOf(s: State, step: Step): Effect {
    var pc := if step.t in s.threads then s.threads[step.t].pc else Idle;
    match step
    case CasPush(t) => if pc.PushCas? && pc.seen == s.head then Pushed(pc.v) else NoEffect
    case CasPop(t) => if pc.PopCas? && pc.seen == s.head then Popped(t) else NoEffect
    case CasDrain(t) => if pc.DrainCas? && pc.seen == s.head then Drained(t) else NoEffect
    case _ => NoEffect
  }

  ghost predicate Represents(s: State, x: Aux, q: Spec) {
    && Inv(s, x) && q.stack == Abs(s, x)
    && q.took == Took(x.priv)
  }

  /** The generation moves exactly at the linearization points. */
  lemma GenerationCountsEffects(s: State, step: Step, s': State, x: Aux)
    requires Inv(s, x) && Next(s, step, s')
    ensures s'.head.ctr == s.head.ctr + if EffectOf(s, step) == NoEffect then 0 else 1
    ensures s'.head == s.head <==> EffectOf(s, step) == NoEffect
  {
    var t := step.t;
    if step.CasPush? {
      assert ThreadInv(s.heap, s.head, x.owner, t, s.threads[t], x.priv[t]);
    }
  }

  /** The steps that leave heap, head and all holdings alone. */
  lemma LocalStep(s: State, x: Aux, step: Step, s': State)
    requires Inv(s, x) && Next(s, step, s')
    requires match step
      case LoadForPush(_) => true case BeginPop(_) => true case LoadForPop(_) => true case ReadNext(_, _) => true
      case CasPush(t) => s.threads[t].pc.PushCas? && s.threads[t].pc.seen != s.head
      case CasPop(t) => s.threads[t].pc.PopCas? && s.threads[t].pc.seen != s.head
      case CasDrain(t) => s.threads[t].pc.DrainCas? && s.threads[t].pc.seen != s.head
      case BeginDrain(_) => true case LoadForDrain(_) => true case SpuriousFail(_) => true
      case _ => false
    ensures Inv(s', x) && Abs(s', x) == Abs(s, x)
  {
    var t := step.t;
    assert t in s.threads && ThreadInv(s.heap, s.head, x.owner, t, s.threads[t], x.priv[t]);
    if step.ReadNext? && s.threads[t].pc.seen == s.head {
    }
    MoveStep(s, x, t, s');
  }

  lemma WalkEndsStep(s: State, x: Aux, t: Tid, s': State)
    requires Inv(s, x) && Next(s, Visit(t), s') && s.threads[t].pc.p.Null?
    ensures Inv(s', x) && Abs(s', x) == Abs(s, x)
  {
    assert ThreadInv(s.heap, s.head, x.owner, t, s.threads[t], x.priv[t]);
    assert x.priv[t].rest == End;
    MoveStep(s, x, t, s');
  }

  lemma TakeValueStep(s: State, x: Aux, t: Tid, s': State)
    requires Inv(s, x) && Next(s, TakeValue(t), s')
    ensures Inv(s', x) && Abs(s', x) == Abs(s, x)
  {
    MoveStep(s, x, t, s');
  }

  /** The auxiliary state after a step. */
  ghost function AuxAfter(s: State, x: Aux, step: Step): Aux
    requires Inv(s, x) && step.t in s.threads
  {
    var t, l := step.t, s.threads[step.t];
    var p := x.priv[t];
    match step
    case BeginPush(_, a, _) => x.(owner := x.owner[a := Thread(t)])
    case CasPush(_) =>
      if EffectOf(s, step).NoEffect? then x
      else x.(chain := Node(l.pc.n, x.chain), owner := x.owner[l.pc.n := Stack])
    case CasPop(_) =>
      if EffectOf(s, step).NoEffect? || x.chain.End? || x.chain.addr !in s.heap then x
      else Aux(x.chain.rest, x.owner[x.chain.addr := Thread(t)],
               x.priv[t := p.(took := p.took + [s.heap[x.chain.addr].val])])
    case CasDrain(_) =>
      if EffectOf(s, step).NoEffect? then x
      else Aux(End, Handed(x.owner, t), x.priv[t := Priv(x.chain, p.took + Abs(s, x))])
    case FreePopped(_) => if l.pc.PopFree? then x.(owner := x.owner - {l.pc.n}) else x
    case Visit(_) => if p.rest.End? then x else x.(priv := x.priv[t := p.(rest := p.rest.rest)])
    case FreeVisited(_) => if l.pc.DrainFree? then x.(owner := x.owner - {l.pc.n}) else x
    case _ => x
  }

  function Took(priv: map<Tid, Priv>): map<Tid, seq<Item>> {
    map t | t in priv :: priv[t].took
  }

  lemma TookUpdated(priv: map<Tid, Priv>, t: Tid, p: Priv)
    requires t in priv
    ensures Took(priv[t := p]) == Took(priv)[t := p.took]
  {
  }

  lemma TookKept(priv: map<Tid, Priv>, t: Tid, p: Priv)
    requires t in priv && p.took == priv[t].took
    ensures Took(priv[t := p]) == Took(priv)
  {
  }

  /** What the effect of a step does to the stack contents, and to what was taken. */
  ghost predicate Matches(s: State, x: Aux, e: Effect, s': State, x': Aux) {
    match e
    case NoEffect => Abs(s', x') == Abs(s, x) && Took(x'.priv) == Took(x.priv)
    case Pushed(v) => Abs(s', x') == [v] + Abs(s, x) && Took(x'.priv) == Took(x.priv)
    case Popped(t) =>
      && Abs(s, x) != [] && t in x.priv && Abs(s', x') == Abs(s, x)[1..]
      && Took(x'.priv) == Took(x.priv)[t := x.priv[t].took + [Abs(s, x)[0]]]
    case Drained(t) =>
      && Abs(s', x') == [] && t in x.priv
      && Took(x'.priv) == Took(x.priv)[t := x.priv[t].took + Abs(s, x)]
  }

  lemma PushMatches(s: State, x: Aux, t: Tid, s': State, x': Aux)
    requires Inv(s, x) && Next(s, CasPush(t), s') && x' == AuxAfter(s, x, CasPush(t))
    requires s.threads[t].pc.seen == s.head
    ensures Inv(s', x') && Matches(s, x, EffectOf(s, CasPush(t)), s', x')
  {
    assert ThreadInv(s.heap, s.head, x.owner, t, s.threads[t], x.priv[t]);
    PushStep(s, x, t, s', x');
  }

  lemma PopMatches(s: State, x: Aux, t: Tid, s': State, x': Aux)
    requires Inv(s, x) && Next(s, CasPop(t), s') && x' == AuxAfter(s, x, CasPop(t))
    requires s.threads[t].pc.seen == s.head
    ensures Inv(s', x') && Matches(s, x, EffectOf(s, CasPop(t)), s', x')
  {
    PopStep(s, x, t, s', x');
    TookUpdated(x.priv, t, x'.priv[t]);
  }

  lemma DrainMatches(s: State, x: Aux, t: Tid, s': State, x': Aux)
    requires Inv(s, x) && Next(s, CasDrain(t), s') && x' == AuxAfter(s, x, CasDrain(t))
    requires s.threads[t].pc.seen == s.head
    ensures Inv(s', x') && Matches(s, x, EffectOf(s, CasDrain(t)), s', x')
  {
    DrainStep(s, x, t, s', x');
    TookUpdated(x.priv, t, x'.priv[t]);
  }

  lemma NodeStepMatches(s: State, x: Aux, step: Step, s': State, x': Aux)
    requires Inv(s, x) && Next(s, step, s') && x' == AuxAfter(s, x, step)
    requires step.BeginPush? || step.Link? || step.TakeValue? || step.FreePopped? || step.FreeVisited? || step.Visit?
    ensures Inv(s', x') && Abs(s', x') == Abs(s, x) && Took(x'.priv) == Took(x.priv)
  {
    var t := step.t;
    match step
    case BeginPush(_, a, v) => BeginPushStep(s, x, t, a, v, s', x');
    case Link(_) => LinkStep(s, x, t, s');
    case TakeValue(_) => TakeValueStep(s, x, t, s');
    case FreePopped(_) => FreePoppedStep(s, x, t, s', x');
    case FreeVisited(_) => FreeVisitedStep(s, x, t, s', x');
    case Visit(_) =>
      TookKept(x.priv, t, x'.priv[t]);
      if s.threads[t].pc.p.Null? { WalkEndsStep(s, x, t, s'); } else { VisitStep(s, x, t, s', x'); }
  }

  lemma LocalMatches(s: State, x: Aux, step: Step, s': State)
    requires Inv(s, x) && Next(s, step, s') && EffectOf(s, step).NoEffect?
    requires !(step.BeginPush? || step.Link? || step.TakeValue? || step.FreePopped? || step.FreeVisited? || step.Visit?)
    ensures Inv(s', x) && Matches(s, x, NoEffect, s', x)
  {
    LocalStep(s, x, step, s');
  }

  lemma StepMatches(s: State, x: Aux, step: Step, s': State, x': Aux)
    requires Inv(s, x) && Next(s, step, s') && x' == AuxAfter(s, x, step)
    ensures Inv(s', x') && Matches(s, x, EffectOf(s, step), s', x')
  {
    if step.BeginPush? || step.Link? || step.TakeValue? || step.FreePopped? || step.FreeVisited? || step.Visit? {
      NodeStepMatches(s, x, step, s', x');
    } else if EffectOf(s, step).NoEffect? {
      LocalMatches(s, x, step, s');
    } else if step.CasPush? {
      PushMatches(s, x, step.t, s', x');
    } else if step.CasPop? {
      PopMatches(s, x, step.t, s', x');
    } else {
      DrainMatches(s, x, step.t, s', x');
    }
  }

  ghost predicate Simulates(s: State, q: Spec) {
    exists x :: Represents(s, x, q)
  }

  /** Every step of the program is the step of the sequential stack at its
      linearization point, or no step of it at all. A pop that takes effect does so
      on a stack that is not empty. */
  lemma StepLinearizes(s: State, q: Spec, step: Step, s': State)
    requires Simulates(s, q) && Next(s, step, s')
    ensures Enabled(q, EffectOf(s, step)) && Simulates(s', Apply(q, EffectOf(s, step)))
  {
    var x :| Represents(s, x, q);
    var x' := AuxAfter(s, x, step);
    StepMatches(s, x, step, s', x');
    assert Represents(s', x', Apply(q, EffectOf(s, step)));
  }

  /** A run: each of the first n steps leads from one state to the next. */
  ghost predicate Run(states: seq<State>, steps: seq<Step>, n: nat)
    requires n <= |steps| < |states|
  {
    if n == 0 then Init(states[0])
    else Run(states, steps, n - 1) && Next(states[n - 1], steps[n - 1], states[n])
  }

  /** The effects of the first n steps, in order. */
  ghost function Effects(states: seq<State>, steps: seq<Step>, n: nat): (es: seq<Effect>)
    requires n <= |steps| < |states|
  {
    if n == 0 then [] else Effects(states, steps, n - 1) + [EffectOf(states[n - 1], steps[n - 1])]
  }

  /** The sequential stack performing a list of effects; None if one is not enabled. */
  ghost function Perform(q: Spec, es: seq<Effect>): Option<Spec> {
    if es == [] then Some(q)
    else
      match Perform(q, es[..|es| - 1])
      case None => None
      case Some(p) => if Enabled(p, es[|es| - 1]) then Some(Apply(p, es[|es| - 1])) else None
  }

  function Empty(threads: set<Tid>): Spec {
    Spec([], map t | t in threads :: [])
  }

  lemma InitSimulates(s: State)
    requires Init(s)
    ensures Simulates(s, Empty(s.threads.Keys))
  {
    var x := Aux(End, map[], map t | t in s.threads :: Priv(End, []));
    assert Abs(s, x) == [];
    assert Represents(s, x, Empty(s.threads.Keys));
  }

  lemma PerformOneMore(q: Spec, es: seq<Effect>, p: Spec, e: Effect)
    requires Perform(q, es) == Some(p) && Enabled(p, e)
    ensures Perform(q, es + [e]) == Some(Apply(p, e))
  {
    assert (es + [e])[..|es + [e]| - 1] == es;
  }

  /** Every run from the empty list is a run of the sequential stack: its effects, in
      the order of their compare-and-swaps, are all enabled and lead to a stack the
      list represents. */
  lemma {:induction false} RunLinearizes(states: seq<State>, steps: seq<Step>, n: nat) returns (q: Spec)
    requires n <= |steps| < |states| && Run(states, steps, n)
    ensures Perform(Empty(states[0].threads.Keys), Effects(states, steps, n)) == Some(q)
    ensures Simulates(states[n], q)
    decreases n
  {
    var start := Empty(states[0].threads.Keys);
    if n == 0 {
      q := start;
      InitSimulates(states[0]);
    } else {
      var p := RunLinearizes(states, steps, n - 1);
      var e := EffectOf(states[n - 1], steps[n - 1]);
      StepLinearizes(states[n - 1], p, steps[n - 1], states[n]);
      q := Apply(p, e);
      PerformOneMore(start, Effects(states, steps, n - 1), p, e);
    }
  }

  // ------------------------------------------------------------- consequences

  /** A pop that reports an empty list saw an empty stack at that very step. */
  lemma EmptyPopIsTrue(s: State, q: Spec, t: Tid, s': State)
    requires Simulates(s, q) && Next(s, LoadForPop(t), s')
    ensures s'.threads[t].pc.Idle? <==> q.stack == []
  {
    var x :| Represents(s, x, q);
    assert s.head.ptr.Null? <==> x.chain == End;
  }

  /** Between operations a thread has handed out exactly what the sequential stack
      gave it, in that order. */
  lemma HandsOutWhatItTook(s: State, q: Spec, t: Tid)
    requires Simulates(s, q) && t in s.threads
    ensures t in q.took && s.threads[t].out <= q.took[t]
    ensures s.threads[t].pc.Idle? ==> s.threads[t].out == q.took[t]
  {
    var x :| Represents(s, x, q);
    assert ThreadInv(s.heap, s.head, x.owner, t, s.threads[t], x.priv[t]);
  }

  /** No use after free, no double free: what a thread holds is allocated, off the
      stack and held by no other thread. */
  lemma HoldingsAreExclusive(s: State, x: Aux, t: Tid, u: Tid, n: Addr)
    requires Inv(s, x) && t in s.threads && u in s.threads
    requires n in Addrs(Held(s.threads[t].pc, x.priv[t].rest))
    ensures n in s.heap && n !in Addrs(x.chain)
    ensures n in Addrs(Held(s.threads[u].pc, x.priv[u].rest)) ==> u == t
  {
    assert ThreadInv(s.heap, s.head, x.owner, t, s.threads[t], x.priv[t]);
    assert ThreadInv(s.heap, s.head, x.owner, u, s.threads[u], x.priv[u]);
  }

  /** ABA: whatever happened to the address in between, a pop whose compare-and-swap
      finds the generation it loaded installs the node's present successor. */
  lemma PopInstallsTrueSuccessor(s: State, q: Spec, t: Tid, s': State)
    requires Simulates(s, q) && Next(s, CasPop(t), s') && s.head == s.threads[t].pc.seen
    ensures s.head.ptr.At? && s.head.ptr.addr in s.heap
    ensures s'.head.ptr == s.heap[s.head.ptr.addr].next
    ensures q.stack != [] && s.heap[s.head.ptr.addr].val == q.stack[0]
  {
    var x :| Represents(s, x, q);
    PopStep(s, x, t, s', AuxAfter(s, x, CasPop(t)));
  }
}
