/** Sequences of pairs in key order that may repeat keys: the abstract contents of the
    binary search tree. Under each key the values form a first-in first-out queue. */
module StableSeq {
  import opened Options
  import opened SortedSeq

  /** The number of pairs from the front with keys up to key. */
  function UpTo(s: seq<KV>, key: int): (n: nat)
    ensures n <= |s| && (forall i :: 0 <= i < n ==> s[i].key <= key) && (n < |s| ==> key < s[n].key)
  {
    if s == [] || key < s[0].key then 0 else 1 + UpTo(s[1..], key)
  }

  /** The position of the first pair with the given key, or the length. */
  function First(s: seq<KV>, key: int): (n: nat)
    ensures n <= |s| && (forall i :: 0 <= i < n ==> s[i].key != key) && (n < |s| ==> s[n].key == key)
  {
    if s == [] || s[0].key == key then 0 else 1 + First(s[1..], key)
  }

  /** A pair goes after everything with a key up to its own. */
  function StableInsert(s: seq<KV>, x: KV): seq<KV> {
    s[..UpTo(s, x.key)] + [x] + s[UpTo(s, x.key)..]
  }

  /** The oldest pair with the key goes. */
  function RemoveFirst(s: seq<KV>, key: int): seq<KV> {
    if First(s, key) == |s| then s else s[..First(s, key)] + s[First(s, key) + 1..]
  }

  function FindFirst(s: seq<KV>, key: int): Option<KV> {
    if First(s, key) == |s| then None else Some(s[First(s, key)])
  }

  /** The values under one key, oldest first. */
  function Queue(s: seq<KV>, key: int): seq<Value> {
    if s == [] then []
    else if s[0].key == key then [s[0].value] + Queue(s[1..], key)
    else Queue(s[1..], key)
  }

  lemma {:induction false} QueueConcat(s: seq<KV>, t: seq<KV>, key: int)
    ensures Queue(s + t, key) == Queue(s, key) + Queue(t, key)
  {
    if s == [] {
      assert s + t == t;
    } else {
      assert (s + t)[1..] == s[1..] + t;
      QueueConcat(s[1..], t, key);
    }
  }

  lemma {:induction false} NoneQueued(s: seq<KV>, key: int)
    requires forall i :: 0 <= i < |s| ==> s[i].key != key
    ensures Queue(s, key) == []
  {
    if s != [] {
      NoneQueued(s[1..], key);
    }
  }

  lemma InsertKeepsOrder(s: seq<KV>, x: KV)
    requires InOrderOfKeys(s)
    ensures InOrderOfKeys(StableInsert(s, x))
  {
    var n := UpTo(s, x.key);
    InOrderSplit(s, n);
    InOrderJoin(s[..n], [x]);
    InOrderJoin(s[..n] + [x], s[n..]);
  }

  lemma QueueSplit(s: seq<KV>, n: nat, key: int)
    requires n <= |s|
    ensures Queue(s, key) == Queue(s[..n], key) + Queue(s[n..], key)
  {
    assert s == s[..n] + s[n..];
    QueueConcat(s[..n], s[n..], key);
  }

  /** Inserting enqueues under the pair's key, and leaves the other queues alone. */
  lemma InsertEnqueues(s: seq<KV>, x: KV, key: int)
    requires InOrderOfKeys(s)
    ensures Queue(StableInsert(s, x), key) == Queue(s, key) + if key == x.key then [x.value] else []
  {
    var n := UpTo(s, x.key);
    QueueSplit(s, n, key);
    QueueConcat(s[..n] + [x], s[n..], key);
    QueueConcat(s[..n], [x], key);
    if key == x.key {
      InOrderSplit(s, n);
      AllAbove(s[n..], key);
    }
  }

  lemma AllAbove(b: seq<KV>, key: int)
    requires InOrderOfKeys(b) && (b != [] ==> key < b[0].key)
    ensures Queue(b, key) == []
  {
    NoneQueued(b, key);
  }

  lemma RemoveKeepsOrder(s: seq<KV>, key: int)
    requires InOrderOfKeys(s)
    ensures InOrderOfKeys(RemoveFirst(s, key))
  {
    var n := First(s, key);
    if n < |s| {
      InOrderSplit(s, n);
      InOrderSplit(s, n + 1);
      InOrderJoin(s[..n], s[n + 1..]);
    }
  }

  lemma QueueAt(s: seq<KV>, n: nat, key: int)
    requires n < |s|
    ensures Queue(s, key) ==
            Queue(s[..n], key) + (if s[n].key == key then [s[n].value] else []) + Queue(s[n + 1..], key)
  {
    QueueSplit(s, n, key);
    assert s[n..][1..] == s[n + 1..];
  }

  /** Removing dequeues under the key, and leaves the other queues alone. */
  lemma RemoveDequeues(s: seq<KV>, x: int, key: int)
    ensures Queue(RemoveFirst(s, x), key) ==
            if key == x && Queue(s, key) != [] then Queue(s, key)[1..] else Queue(s, key)
  {
    var n := First(s, x);
    if n == |s| {
      NoneQueued(s, x);
    } else {
      QueueAt(s, n, key);
      QueueConcat(s[..n], s[n + 1..], key);
      if key == x {
        NoneQueued(s[..n], key);
      }
    }
  }

  /** Finding looks at the oldest value under the key. */
  lemma FindPeeks(s: seq<KV>, key: int)
    ensures FindFirst(s, key) == if Queue(s, key) == [] then None else Some(KV(key, Queue(s, key)[0]))
  {
    var n := First(s, key);
    if n == |s| {
      NoneQueued(s, key);
    } else {
      QueueAt(s, n, key);
      NoneQueued(s[..n], key);
    }
  }

  /** The operations of a run. */
  datatype Op = Emplace(x: KV) | Remove(key: int)

  function Apply(s: seq<KV>, op: Op): seq<KV> {
    match op
    case Emplace(x) => StableInsert(s, x)
    case Remove(key) => RemoveFirst(s, key)
  }

  function Run(s: seq<KV>, ops: seq<Op>): seq<KV> {
    if ops == [] then s else Apply(Run(s, ops[..|ops| - 1]), ops[|ops| - 1])
  }

  /** What a run does to the queue of one key. */
  function QueueAfter(ops: seq<Op>, key: int): seq<Value> {
    if ops == [] then []
    else
      var q, op := QueueAfter(ops[..|ops| - 1], key), ops[|ops| - 1];
      match op
      case Emplace(x) => if x.key == key then q + [x.value] else q
      case Remove(k) => if k == key && q != [] then q[1..] else q
  }

  /** Whatever the run, the pairs stay in key order and duplicates are served first in,
      first out. */
  lemma {:induction false} RunIsQueues(ops: seq<Op>, key: int)
    ensures InOrderOfKeys(Run([], ops)) && Queue(Run([], ops), key) == QueueAfter(ops, key)
  {
    if ops != [] {
      RunIsQueues(ops[..|ops| - 1], key);
      var s := Run([], ops[..|ops| - 1]);
      match ops[|ops| - 1]
      case Emplace(x) =>
        InsertKeepsOrder(s, x);
        InsertEnqueues(s, x, key);
      case Remove(k) =>
        RemoveKeepsOrder(s, k);
        RemoveDequeues(s, k, key);
    }
  }

  // ------------------------------------------------- recognising the positions

  lemma UpToIs(a: seq<KV>, b: seq<KV>, key: int)
    requires forall i :: 0 <= i < |a| ==> a[i].key <= key
    requires forall i :: 0 <= i < |b| ==> key < b[i].key
    ensures UpTo(a + b, key) == |a|
  {
    assert forall i :: 0 <= i < |a| ==> (a + b)[i] == a[i];
    assert b != [] ==> (a + b)[|a|] == b[0];
  }

  lemma InsertBetween(a: seq<KV>, b: seq<KV>, x: KV)
    requires forall i :: 0 <= i < |a| ==> a[i].key <= x.key
    requires forall i :: 0 <= i < |b| ==> x.key < b[i].key
    ensures StableInsert(a + b, x) == a + [x] + b
  {
    UpToIs(a, b, x.key);
    assert (a + b)[..|a|] == a && (a + b)[|a|..] == b;
  }

  lemma FirstIs(a: seq<KV>, x: KV, b: seq<KV>)
    requires forall i :: 0 <= i < |a| ==> a[i].key != x.key
    ensures First(a + [x] + b, x.key) == |a|
  {
    var s := a + [x] + b;
    assert s[|a|] == x && forall i :: 0 <= i < |a| ==> s[i] == a[i];
  }

  lemma RemoveBetween(a: seq<KV>, x: KV, b: seq<KV>)
    requires forall i :: 0 <= i < |a| ==> a[i].key != x.key
    ensures RemoveFirst(a + [x] + b, x.key) == a + b
    ensures FindFirst(a + [x] + b, x.key) == Some(x)
  {
    FirstIs(a, x, b);
    var s := a + [x] + b;
    assert s[..|a|] == a && s[|a| + 1..] == b && s[|a|] == x;
  }

  lemma NotThere(s: seq<KV>, key: int)
    requires forall i :: 0 <= i < |s| ==> s[i].key != key
    ensures RemoveFirst(s, key) == s && FindFirst(s, key) == None
  {
  }
}
