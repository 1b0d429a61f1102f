/** The shape of a binary search tree as a value: which node sits where, with which
    data. A path of left and right turns names a place in it; what the pointer loops of
    the tree do is to replace the subtree at a path. */
module TreeShape {
  import opened SortedSeq
  import opened StableSeq

  class Node {
    var data: KV
    var left: Node?
    var right: Node?

    constructor (data: KV)
      ensures this.data == data && left == null && right == null
    {
      this.data, left, right := data, null, null;
    }
  }

  datatype Shape = Nil | Bin(node: Node, data: KV, left: Shape, right: Shape)

  function Nodes(t: Shape): set<Node> {
    if t.Nil? then {} else {t.node} + Nodes(t.left) + Nodes(t.right)
  }

  /** Every node sits in one place. */
  predicate Apart(t: Shape) {
    t.Bin? ==>
      && t.node !in Nodes(t.left) && t.node !in Nodes(t.right) && Nodes(t.left) !! Nodes(t.right)
      && Apart(t.left) && Apart(t.right)
  }

  function InOrder(t: Shape): seq<KV> {
    if t.Nil? then [] else InOrder(t.left) + [t.data] + InOrder(t.right)
  }

  ghost predicate Less(s: seq<KV>, key: int) {
    forall i :: 0 <= i < |s| ==> s[i].key < key
  }

  ghost predicate AtLeast(s: seq<KV>, key: int) {
    forall i :: 0 <= i < |s| ==> key <= s[i].key
  }

  /** Left of a node strictly smaller keys, right of it no smaller ones: equal keys
      only ever follow each other to the right. */
  ghost predicate Ordered(t: Shape) {
    t.Bin? ==>
      && Less(InOrder(t.left), t.data.key) && AtLeast(InOrder(t.right), t.data.key)
      && Ordered(t.left) && Ordered(t.right)
  }

  // --------------------------------------------------------------------- paths

  /** The path stays in the tree; true turns left. */
  predicate On(t: Shape, path: seq<bool>) {
    path == [] || (t.Bin? && On(if path[0] then t.left else t.right, path[1..]))
  }

  function Sub(t: Shape, path: seq<bool>): Shape
    requires On(t, path)
  {
    if path == [] then t else Sub(if path[0] then t.left else t.right, path[1..])
  }

  function Graft(t: Shape, path: seq<bool>, u: Shape): Shape
    requires On(t, path)
  {
    if path == [] then u
    else if path[0] then t.(left := Graft(t.left, path[1..], u))
    else t.(right := Graft(t.right, path[1..], u))
  }

  /** The pairs to the left of the place at path, in order. */
  function Before(t: Shape, path: seq<bool>): seq<KV>
    requires On(t, path)
  {
    if path == [] then []
    else if path[0] then Before(t.left, path[1..])
    else InOrder(t.left) + [t.data] + Before(t.right, path[1..])
  }

  function After(t: Shape, path: seq<bool>): seq<KV>
    requires On(t, path)
  {
    if path == [] then []
    else if path[0] then After(t.left, path[1..]) + [t.data] + InOrder(t.right)
    else After(t.right, path[1..])
  }

  /** The key may stand at the place at path. */
  ghost predicate Fits(t: Shape, path: seq<bool>, key: int)
    requires On(t, path)
  {
    path != [] ==>
      if path[0] then key < t.data.key && Fits(t.left, path[1..], key)
      else t.data.key <= key && Fits(t.right, path[1..], key)
  }

  lemma {:induction false} GraftOrder(t: Shape, path: seq<bool>, u: Shape)
    requires On(t, path)
    ensures InOrder(Graft(t, path, u)) == Before(t, path) + InOrder(u) + After(t, path)
  {
    if path != [] {
      if path[0] {
        GraftOrder(t.left, path[1..], u);
      } else {
        GraftOrder(t.right, path[1..], u);
      }
    }
  }

  lemma {:induction false} SubOrder(t: Shape, path: seq<bool>)
    requires On(t, path)
    ensures InOrder(t) == Before(t, path) + InOrder(Sub(t, path)) + After(t, path)
    ensures Graft(t, path, Sub(t, path)) == t
  {
    if path != [] {
      SubOrder(if path[0] then t.left else t.right, path[1..]);
    }
  }

  /** One more turn down. */
  lemma {:induction false} Turn(t: Shape, path: seq<bool>, left: bool)
    requires On(t, path) && Sub(t, path).Bin?
    ensures On(t, path + [left]) && Sub(t, path + [left]) == if left then Sub(t, path).left else Sub(t, path).right
    ensures Before(t, path + [left]) ==
            Before(t, path) + if left then [] else InOrder(Sub(t, path).left) + [Sub(t, path).data]
    ensures After(t, path + [left]) ==
            (if left then [Sub(t, path).data] + InOrder(Sub(t, path).right) else []) + After(t, path)
  {
    var longer := path + [left];
    if path != [] {
      assert longer[0] == path[0] && longer[1..] == path[1..] + [left];
      Turn(if path[0] then t.left else t.right, path[1..], left);
    }
  }

  /** Replacing a subtree keeps the order when every new key fits. */
  lemma {:induction false} GraftOrdered(t: Shape, path: seq<bool>, u: Shape)
    requires On(t, path) && Ordered(t) && Ordered(u)
    requires forall i :: 0 <= i < |InOrder(u)| ==> Fits(t, path, InOrder(u)[i].key)
    ensures Ordered(Graft(t, path, u))
  {
    if path != [] {
      var c, rest := if path[0] then t.left else t.right, path[1..];
      forall i | 0 <= i < |InOrder(u)| ensures Fits(c, rest, InOrder(u)[i].key) {
        assert Fits(t, path, InOrder(u)[i].key);
      }
      GraftOrdered(c, rest, u);
      GraftOrder(c, rest, u);
      SubOrder(c, rest);
      var mid := InOrder(Graft(c, rest, u));
      forall i | 0 <= i < |mid| ensures if path[0] then mid[i].key < t.data.key else t.data.key <= mid[i].key {
        var a, b := Before(c, rest), InOrder(u);
        if i < |a| { assert mid[i] == InOrder(c)[i]; }
        else if i < |a| + |b| { assert mid[i] == b[i - |a|] && Fits(t, path, b[i - |a|].key); }
        else { assert mid[i] == InOrder(c)[i - |b| + |InOrder(Sub(c, rest))|]; }
      }
    }
  }

  /** What stands at a place fits there. */
  lemma {:induction false} SubFits(t: Shape, path: seq<bool>, i: nat)
    requires On(t, path) && Ordered(t) && i < |InOrder(Sub(t, path))|
    ensures Fits(t, path, InOrder(Sub(t, path))[i].key) && Ordered(Sub(t, path))
  {
    if path != [] {
      var c := if path[0] then t.left else t.right;
      SubFits(c, path[1..], i);
      SubOrder(c, path[1..]);
      assert InOrder(c)[|Before(c, path[1..])| + i] == InOrder(Sub(t, path))[i];
    }
  }

  // --------------------------------------------------------------------- nodes

  lemma {:induction false} SubNodes(t: Shape, path: seq<bool>)
    requires On(t, path) && Apart(t)
    ensures Nodes(Sub(t, path)) <= Nodes(t) && Apart(Sub(t, path))
  {
    if path != [] {
      SubNodes(if path[0] then t.left else t.right, path[1..]);
    }
  }

  lemma {:induction false} GraftNodes(t: Shape, path: seq<bool>, u: Shape)
    requires On(t, path) && Apart(t) && Apart(u)
    requires Nodes(u) !! Nodes(t) - Nodes(Sub(t, path))
    ensures Apart(Graft(t, path, u))
    ensures Nodes(Graft(t, path, u)) == Nodes(t) - Nodes(Sub(t, path)) + Nodes(u)
  {
    if path != [] {
      var c := if path[0] then t.left else t.right;
      SubNodes(c, path[1..]);
      GraftNodes(c, path[1..], u);
    }
  }

  // ------------------------------------------------------------------- linking

  /** The heap below p looks as t says. */
  ghost predicate Linked(p: Node?, t: Shape)
    reads Nodes(t)
  {
    match t
    case Nil => p == null
    case Bin(n, d, l, r) => p == n && n.data == d && Linked(n.left, l) && Linked(n.right, r)
  }

  /** The heap below p looks as t says except at path, where the pointer is q; the nodes
      of the subtree there are not looked at. */
  ghost predicate Hole(p: Node?, t: Shape, path: seq<bool>, q: Node?)
    requires On(t, path) && Apart(t)
    reads Nodes(t) - Nodes(Sub(t, path))
  {
    if path == [] then p == q
    else
      SubNodes(if path[0] then t.left else t.right, path[1..]);
      && p == t.node && t.node.data == t.data
      && if path[0] then Hole(t.node.left, t.left, path[1..], q) && Linked(t.node.right, t.right)
         else Linked(t.node.left, t.left) && Hole(t.node.right, t.right, path[1..], q)
  }

  lemma {:induction false} HoleDown(p: Node?, t: Shape, path: seq<bool>, n: Node, left: bool)
    requires On(t, path) && Apart(t) && Hole(p, t, path, n) && Linked(n, Sub(t, path))
    ensures Sub(t, path).Bin? && On(t, path + [left])
    ensures Hole(p, t, path + [left], if left then n.left else n.right)
    ensures Linked(if left then n.left else n.right, Sub(t, path + [left]))
  {
    Turn(t, path, left);
    var longer := path + [left];
    if path != [] {
      assert longer[0] == path[0] && longer[1..] == path[1..] + [left];
      if path[0] {
        HoleDown(t.node.left, t.left, path[1..], n, left);
      } else {
        HoleDown(t.node.right, t.right, path[1..], n, left);
      }
    } else {
      assert longer[1..] == [];
    }
  }

  /** Filling the hole with whatever hangs at q gives the grafted tree. */
  lemma {:induction false} Fill(p: Node?, t: Shape, path: seq<bool>, q: Node?, u: Shape)
    requires On(t, path) && Apart(t) && Hole(p, t, path, q) && Linked(q, u)
    ensures Linked(p, Graft(t, path, u))
  {
    if path != [] {
      if path[0] {
        Fill(t.node.left, t.left, path[1..], q, u);
      } else {
        Fill(t.node.right, t.right, path[1..], q, u);
      }
    }
  }
}
