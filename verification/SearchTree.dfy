/** The binary search tree with duplicates: nodes linked by pointers, walked and
    relinked by loops. Its contents are a sequence in key order, stable under
    duplicates. */
module SearchTree {
  import opened Options
  import opened Seqs
  import opened SortedSeq
  import opened StableSeq
  import opened TreeShape

  /** Everything before is up to the key and everything after above it. */
  ghost predicate Between(t: Shape, path: seq<bool>, key: int)
    requires On(t, path)
  {
    && (forall i :: 0 <= i < |Before(t, path)| ==> Before(t, path)[i].key <= key)
    && (forall i :: 0 <= i < |After(t, path)| ==> key < After(t, path)[i].key)
  }

  /** Where a search for the key still has to look: nothing before or after has it. */
  ghost predicate Narrowed(t: Shape, path: seq<bool>, key: int)
    requires On(t, path)
  {
    && Less(Before(t, path), key)
    && (forall i :: 0 <= i < |After(t, path)| ==> key < After(t, path)[i].key)
  }

  lemma AboveParts(s: seq<KV>, a: seq<KV>, x: KV, b: seq<KV>, key: int)
    requires s == a + [x] + b && forall i :: 0 <= i < |s| ==> key < s[i].key
    ensures key < x.key && forall i :: 0 <= i < |a| ==> key < a[i].key
  {
    assert s[|a|] == x && forall i :: 0 <= i < |a| ==> s[i] == a[i];
  }

  lemma UpToParts(s: seq<KV>, a: seq<KV>, x: KV, b: seq<KV>, key: int)
    requires s == a + [x] + b && forall i :: 0 <= i < |s| ==> s[i].key <= key
    ensures x.key <= key && forall i :: 0 <= i < |b| ==> b[i].key <= key
  {
    assert s[|a|] == x && forall i :: 0 <= i < |b| ==> s[|a| + 1 + i] == b[i];
  }

  lemma {:induction false} BetweenFits(t: Shape, path: seq<bool>, key: int)
    requires On(t, path) && Between(t, path, key)
    ensures Fits(t, path, key)
  {
    if path != [] {
      if path[0] {
        AboveParts(After(t, path), After(t.left, path[1..]), t.data, InOrder(t.right), key);
        assert Before(t, path) == Before(t.left, path[1..]);
        BetweenFits(t.left, path[1..], key);
      } else {
        UpToParts(Before(t, path), InOrder(t.left), t.data, Before(t.right, path[1..]), key);
        assert After(t, path) == After(t.right, path[1..]);
        BetweenFits(t.right, path[1..], key);
      }
    }
  }

  lemma SubOrdered(t: Shape, path: seq<bool>)
    requires On(t, path) && Ordered(t)
    ensures Ordered(Sub(t, path))
  {
    if InOrder(Sub(t, path)) != [] {
      SubFits(t, path, 0);
    }
  }

  /** What a turn adds to the pairs before and after a place. */
  lemma TurnBounds(b: seq<KV>, a: seq<KV>, l: seq<KV>, d: KV, r: seq<KV>, key: int, left: bool)
    requires forall i :: 0 <= i < |a| ==> key < a[i].key
    requires Less(l, d.key) && AtLeast(r, d.key)
    ensures left && key < d.key ==> forall i :: 0 <= i < |([d] + r) + a| ==> key < (([d] + r) + a)[i].key
    ensures !left && d.key < key && Less(b, key) ==> Less(b + (l + [d]), key)
    ensures !left && d.key <= key && (forall i :: 0 <= i < |b| ==> b[i].key <= key) ==>
              forall i :: 0 <= i < |b + (l + [d])| ==> (b + (l + [d]))[i].key <= key
  {
  }

  /** A turn by comparison keeps the bounds. */
  lemma TurnBetween(t: Shape, path: seq<bool>, key: int, left: bool)
    requires On(t, path) && Ordered(t) && Between(t, path, key) && Sub(t, path).Bin?
    requires left <==> key < Sub(t, path).data.key
    ensures On(t, path + [left]) && Between(t, path + [left], key)
  {
    Turn(t, path, left);
    SubOrdered(t, path);
    var s := Sub(t, path);
    TurnBounds(Before(t, path), After(t, path), InOrder(s.left), s.data, InOrder(s.right), key, left);
    assert Before(t, path) + [] == Before(t, path) && [] + After(t, path) == After(t, path);
  }

  lemma TurnNarrowed(t: Shape, path: seq<bool>, key: int, left: bool)
    requires On(t, path) && Ordered(t) && Narrowed(t, path, key) && Sub(t, path).Bin?
    requires if left then key < Sub(t, path).data.key else Sub(t, path).data.key < key
    ensures On(t, path + [left]) && Narrowed(t, path + [left], key)
  {
    Turn(t, path, left);
    SubOrdered(t, path);
    var s := Sub(t, path);
    TurnBounds(Before(t, path), After(t, path), InOrder(s.left), s.data, InOrder(s.right), key, left);
    assert Before(t, path) + [] == Before(t, path) && [] + After(t, path) == After(t, path);
  }

  /** Replacing a child at its own place or within its parent is the same. */
  lemma {:induction false} GraftTwice(t: Shape, path: seq<bool>, left: bool, v: Shape)
    requires On(t, path) && Sub(t, path).Bin? && On(t, path + [left])
    ensures Graft(t, path + [left], v) ==
            Graft(t, path, if left then Sub(t, path).(left := v) else Sub(t, path).(right := v))
  {
    var longer := path + [left];
    if path != [] {
      assert longer[0] == path[0] && longer[1..] == path[1..] + [left];
      GraftTwice(if path[0] then t.left else t.right, path[1..], left, v);
    } else {
      assert longer[1..] == [];
    }
  }

  lemma InsertMiddle(a: seq<KV>, b: seq<KV>, x: KV, s: seq<KV>)
    requires forall i :: 0 <= i < |a| ==> a[i].key <= x.key
    requires forall i :: 0 <= i < |b| ==> x.key < b[i].key
    requires s == a + [] + b
    ensures StableInsert(s, x) == a + [x] + b
  {
    assert s == a + b;
    InsertBetween(a, b, x);
  }

  lemma RemoveMiddle(p: seq<KV>, l: seq<KV>, x: KV, r: seq<KV>, q: seq<KV>)
    requires Less(p, x.key) && Less(l, x.key)
    ensures RemoveFirst(p + (l + [x] + r) + q, x.key) == p + (l + r) + q
    ensures FindFirst(p + (l + [x] + r) + q, x.key) == Some(x)
  {
    var a, b := p + l, r + q;
    assert p + (l + [x] + r) + q == a + [x] + b && p + (l + r) + q == a + b;
    RemoveBetween(a, x, b);
  }

  lemma Regroup(x: KV, r: seq<KV>, q: seq<KV>, p: seq<KV>, s: seq<KV>)
    requires p == [] && s == [x] + r
    ensures p + s + q == [x] + (p + r + q)
  {
  }

  /** A new leaf at an empty place between the smaller and the larger keys. */
  lemma LeafShape(t: Shape, spot: seq<bool>, x: KV, m: Node)
    requires On(t, spot) && Apart(t) && Ordered(t) && Between(t, spot, x.key)
    requires Sub(t, spot).Nil? && m !in Nodes(t)
    ensures Apart(Graft(t, spot, Bin(m, x, Nil, Nil))) && Ordered(Graft(t, spot, Bin(m, x, Nil, Nil)))
    ensures Nodes(Graft(t, spot, Bin(m, x, Nil, Nil))) == Nodes(t) + {m}
    ensures InOrder(Graft(t, spot, Bin(m, x, Nil, Nil))) == StableInsert(InOrder(t), x)
  {
    var leaf := Bin(m, x, Nil, Nil);
    Leaf(leaf);
    GraftNodes(t, spot, leaf);
    LeafOrdered(t, spot, leaf);
    LeafOrder(t, spot, leaf);
  }

  lemma Leaf(u: Shape)
    requires u.Bin? && u.left.Nil? && u.right.Nil?
    ensures Nodes(u) == {u.node} && InOrder(u) == [u.data] && Apart(u) && Ordered(u)
  {
  }

  lemma LeafOrdered(t: Shape, spot: seq<bool>, leaf: Shape)
    requires On(t, spot) && Ordered(t) && Ordered(leaf)
    requires |InOrder(leaf)| == 1 && Between(t, spot, InOrder(leaf)[0].key)
    ensures Ordered(Graft(t, spot, leaf))
  {
    BetweenFits(t, spot, InOrder(leaf)[0].key);
    GraftOrdered(t, spot, leaf);
  }

  lemma LeafOrder(t: Shape, spot: seq<bool>, leaf: Shape)
    requires On(t, spot) && Sub(t, spot).Nil?
    requires |InOrder(leaf)| == 1 && Between(t, spot, InOrder(leaf)[0].key)
    ensures InOrder(Graft(t, spot, leaf)) == StableInsert(InOrder(t), InOrder(leaf)[0])
  {
    GraftOrder(t, spot, leaf);
    SubOrder(t, spot);
    InsertMiddle(Before(t, spot), After(t, spot), InOrder(leaf)[0], InOrder(t));
  }

  /** The new leaf: below the node where the walk ended, on the side it fell off. */
  lemma EmplaceShape(t: Shape, path: seq<bool>, x: KV, m: Node, left: bool, t': Shape)
    requires On(t, path) && Apart(t) && Ordered(t) && Between(t, path, x.key)
    requires Sub(t, path).Bin? && (left <==> x.key < Sub(t, path).data.key)
    requires if left then Sub(t, path).left.Nil? else Sub(t, path).right.Nil?
    requires m !in Nodes(t)
    requires t' == Graft(t, path, if left then Sub(t, path).(left := Bin(m, x, Nil, Nil))
                                  else Sub(t, path).(right := Bin(m, x, Nil, Nil)))
    ensures Apart(t') && Ordered(t') && Nodes(t') == Nodes(t) + {m}
    ensures InOrder(t') == StableInsert(InOrder(t), x)
  {
    TurnBetween(t, path, x.key, left);
    Turn(t, path, left);
    GraftTwice(t, path, left, Bin(m, x, Nil, Nil));
    LeafShape(t, path + [left], x, m);
  }

  /** Replacing a subtree by one with no new pairs keeps the order. */
  lemma ShrinkOrdered(t: Shape, path: seq<bool>, u: Shape)
    requires On(t, path) && Ordered(t) && Ordered(u)
    requires forall x :: x in InOrder(u) ==> x in InOrder(Sub(t, path))
    ensures Ordered(Graft(t, path, u))
  {
    var s := InOrder(Sub(t, path));
    forall i | 0 <= i < |InOrder(u)| ensures Fits(t, path, InOrder(u)[i].key) {
      assert InOrder(u)[i] in s;
      var j :| 0 <= j < |s| && s[j] == InOrder(u)[i];
      SubFits(t, path, j);
    }
    GraftOrdered(t, path, u);
  }

  lemma RemoveContents(t: Shape, path: seq<bool>, key: int, u: Shape)
    requires On(t, path) && Ordered(t) && Narrowed(t, path, key)
    requires Sub(t, path).Bin? && Sub(t, path).data.key == key
    requires InOrder(u) == InOrder(Sub(t, path).left) + InOrder(Sub(t, path).right)
    ensures InOrder(Graft(t, path, u)) == RemoveFirst(InOrder(t), key)
  {
    var s := Sub(t, path);
    SubOrdered(t, path);
    SubOrder(t, path);
    GraftOrder(t, path, u);
    RemoveMiddle(Before(t, path), InOrder(s.left), s.data, InOrder(s.right), After(t, path));
  }

  /** Removing the topmost match: its subtree keeps the rest of its pairs, and what goes
      is the first pair with the key. */
  lemma RemoveShape(t: Shape, path: seq<bool>, key: int, u: Shape)
    requires On(t, path) && Apart(t) && Ordered(t) && Narrowed(t, path, key)
    requires Sub(t, path).Bin? && Sub(t, path).data.key == key
    requires Apart(u) && Ordered(u) && Nodes(u) <= Nodes(Sub(t, path))
    requires InOrder(u) == InOrder(Sub(t, path).left) + InOrder(Sub(t, path).right)
    ensures Apart(Graft(t, path, u)) && Ordered(Graft(t, path, u)) && Nodes(Graft(t, path, u)) <= Nodes(t)
    ensures InOrder(Graft(t, path, u)) == RemoveFirst(InOrder(t), key)
  {
    SubNodes(t, path);
    GraftNodes(t, path, u);
    ShrinkOrdered(t, path, u);
    RemoveContents(t, path, key, u);
  }

  /** Where a search ends. */
  lemma SearchEnds(t: Shape, path: seq<bool>, key: int)
    requires On(t, path) && Ordered(t) && Narrowed(t, path, key)
    requires Sub(t, path).Nil? || Sub(t, path).data.key == key
    ensures FindFirst(InOrder(t), key) == if Sub(t, path).Nil? then None else Some(Sub(t, path).data)
    ensures Sub(t, path).Nil? ==> RemoveFirst(InOrder(t), key) == InOrder(t)
  {
    var s := Sub(t, path);
    SubOrder(t, path);
    SubOrdered(t, path);
    if s.Nil? {
      NotThere(InOrder(t), key);
    } else {
      RemoveMiddle(Before(t, path), InOrder(s.left), s.data, InOrder(s.right), After(t, path));
    }
  }

  /** Only left turns. */
  ghost predicate Leftward(path: seq<bool>) {
    forall i :: 0 <= i < |path| ==> path[i]
  }

  /** Only left turns: nothing is before, and an empty left side there means the
      smallest pair. */
  lemma {:induction false} Leftmost(t: Shape, path: seq<bool>)
    requires On(t, path) && Leftward(path)
    ensures Before(t, path) == []
  {
    if path != [] {
      Leftmost(t.left, path[1..]);
    }
  }

  lemma UnhookContents(t: Shape, path: seq<bool>)
    requires On(t, path) && Leftward(path)
    requires Sub(t, path).Bin? && Sub(t, path).left.Nil?
    ensures InOrder(t) == [Sub(t, path).data] + InOrder(Graft(t, path, Sub(t, path).right))
  {
    var s := Sub(t, path);
    Leftmost(t, path);
    GraftOrder(t, path, s.right);
    SubOrder(t, path);
    assert InOrder(s) == [s.data] + InOrder(s.right);
    Regroup(s.data, InOrder(s.right), After(t, path), Before(t, path), InOrder(s));
  }

  /** Unhooking the leftmost node. */
  lemma UnhookShape(t: Shape, path: seq<bool>, u: Shape)
    requires On(t, path) && Apart(t) && Ordered(t)
    requires Sub(t, path).Bin? && Sub(t, path).left.Nil? && u == Graft(t, path, Sub(t, path).right)
    ensures Apart(u) && Ordered(u) && Nodes(u) <= Nodes(t)
  {
    var s := Sub(t, path);
    SubNodes(t, path);
    GraftNodes(t, path, s.right);
    SubOrdered(t, path);
    assert InOrder(s) == [s.data] + InOrder(s.right);
    ShrinkOrdered(t, path, s.right);
  }

  /** The walk of min_value below its first node: parent stands at path in r, which
      hangs at q, and its left child is m, of shape s. */
  ghost predicate AtLeft(q: Node?, r: Shape, path: seq<bool>, parent: Node, m: Node, s: Shape)
    reads Nodes(r)
  {
    && On(r, path) && Apart(r) && Leftward(path) && Sub(r, path).Bin? && Sub(r, path).left == s && s.Bin?
    && Hole(q, r, path, parent) && m == s.node
    && (SubNodes(r, path); Linked(parent, Sub(r, path)))
  }

  lemma WalkLeft(q: Node?, r: Shape, path: seq<bool>, parent: Node, m: Node, s: Shape)
    requires AtLeft(q, r, path, parent, m, s) && s.left.Bin?
    ensures AtLeft(q, r, path + [true], m, s.left.node, s.left) && m in Nodes(r) && m.left == s.left.node
  {
    HoleDown(q, r, path, parent, true);
    Turn(r, path, true);
    SubNodes(r, path);
  }

  lemma AtLeftNodes(q: Node?, r: Shape, path: seq<bool>, parent: Node, m: Node, s: Shape)
    requires AtLeft(q, r, path, parent, m, s)
    ensures parent in Nodes(r) && Nodes(s) <= Nodes(r) && parent !in Nodes(s) && m in Nodes(r)
    ensures Linked(m, s) && s.data == m.data
  {
    SubNodes(r, path);
    assert Linked(parent.left, s);
  }

  /** Taking the leftmost node out from under its parent. */
  method UnhookLeft(parent: Node, m: Node, ghost q: Node?, ghost r: Shape, ghost path: seq<bool>, ghost s: Shape)
    returns (ghost r': Shape)
    requires AtLeft(q, r, path, parent, m, s) && s.left.Nil? && Ordered(r)
    requires parent in Nodes(r)
    modifies parent`left
    ensures Linked(q, r') && Apart(r') && Ordered(r') && Nodes(r') <= Nodes(r)
    ensures InOrder(r) == [s.data] + InOrder(r')
  {
    ghost var u := Sub(r, path).(left := s.right);
    AtLeftNodes(q, r, path, parent, m, s);
    SubNodes(r, path);
    parent.left := m.right;
    assert Linked(parent, u);
    Fill(q, r, path, parent, u);
    r' := Graft(r, path, u);
    Turn(r, path, true);
    GraftTwice(r, path, true, s.right);
    UnhookShape(r, path + [true], r');
    UnhookContents(r, path + [true]);
  }

  /** The walk of min_value: the leftmost node m of the right subtree and its parent,
      which is n itself when the walk takes no turn. */
  method FindLeftmost(n: Node, ghost t: Shape) returns (parent: Node, m: Node, ghost path: seq<bool>, ghost s: Shape)
    requires t.Bin? && t.right.Bin? && Linked(n, t) && Apart(t)
    ensures s.Bin? && s.left.Nil? && Linked(m, s)
    ensures if parent == n then s == t.right && m == n.right else AtLeft(n.right, t.right, path, parent, m, s)
  {
    ghost var r := t.right;
    parent, m, s, path := n, n.right, r, [];
    while m.left != null
      invariant s.Bin? && Linked(m, s)
      invariant if parent == n then s == r && m == n.right else AtLeft(n.right, r, path, parent, m, s)
      decreases s
    {
      if parent == n {
        path := [];
      } else {
        WalkLeft(n.right, r, path, parent, m, s);
        path := path + [true];
      }
      parent := m;
      m := m.left;
      s := s.left;
    }
  }

  /** min_value: takes the smallest pair out of the right subtree of n. */
  method MinValue(n: Node, ghost t: Shape) returns (res: KV, ghost t': Shape)
    requires t.Bin? && t.right.Bin? && Linked(n, t) && Apart(t) && Ordered(t)
    modifies Nodes(t)
    ensures n.data == t.data && Linked(n, t') && Apart(t') && Ordered(t'.right) && Nodes(t') <= Nodes(t)
    ensures t'.Bin? && t'.node == n && t'.data == t.data && t'.left == t.left
    ensures InOrder(t.right) == [res] + InOrder(t'.right)
  {
    ghost var r, r' := t.right, t.right;
    assert t.node == n && n.data == t.data && Linked(n.left, t.left);
    assert allocated(Nodes(t));
    var parent, m, path, s := FindLeftmost(n, t);
    res := m.data;
    if parent == n {
      r' := s.right;
      parent.right := m.right;
    } else {
      AtLeftNodes(n.right, r, path, parent, m, s);
      r' := UnhookLeft(parent, m, n.right, r, path, s);
    }
    t' := t.(right := r');
  }

  lemma {:induction false} OrderedContents(t: Shape)
    requires Ordered(t)
    ensures InOrderOfKeys(InOrder(t))
  {
    if t.Bin? {
      OrderedContents(t.left);
      OrderedContents(t.right);
      InOrderJoin(InOrder(t.left), [t.data]);
      InOrderJoin(InOrder(t.left) + [t.data], InOrder(t.right));
    }
  }

  lemma SmallestBounds(l: seq<KV>, key: int, s: seq<KV>, x: KV, r: seq<KV>)
    requires Less(l, key) && AtLeast(s, key) && InOrderOfKeys(s) && s == [x] + r
    ensures Less(l, x.key) && AtLeast(r, x.key) && l + [x] + r == l + s
  {
    assert s[0] == x && forall i :: 0 <= i < |r| ==> s[i + 1] == r[i];
    Associate(l, [x], r);
  }

  /** A node whose pair was replaced by the smallest of its right subtree. */
  lemma ReplacedShape(s: Shape, res: KV, r: Shape)
    requires s.Bin? && Apart(s) && Ordered(s) && InOrder(s.right) == [res] + InOrder(r)
    requires Apart(r) && Ordered(r) && Nodes(r) <= Nodes(s.right)
    ensures Apart(Bin(s.node, res, s.left, r)) && Ordered(Bin(s.node, res, s.left, r))
    ensures Nodes(Bin(s.node, res, s.left, r)) <= Nodes(s)
    ensures InOrder(Bin(s.node, res, s.left, r)) == InOrder(s.left) + InOrder(s.right)
  {
    OrderedContents(s.right);
    SmallestBounds(InOrder(s.left), s.data.key, InOrder(s.right), res, InOrder(r));
  }

  /** n->data_ = n->min_value(). */
  method ReplaceByMin(n: Node, ghost s: Shape) returns (ghost u: Shape)
    requires s.Bin? && s.right.Bin? && Linked(n, s) && Apart(s) && Ordered(s)
    modifies Nodes(s)
    ensures Linked(n, u) && Apart(u) && Ordered(u) && Nodes(u) <= Nodes(s)
    ensures InOrder(u) == InOrder(s.left) + InOrder(s.right)
  {
    assert allocated(Nodes(s));
    var res, t := MinValue(n, s);
    ReplacedShape(s, res, t.right);
    u := Bin(n, res, s.left, t.right);
    n.data := res;
  }

  /** node::assign: n takes over the pair and the children of its only child. */
  method Assign(n: Node, c: Node, ghost s: Shape, ghost only: Shape) returns (ghost u: Shape)
    requires s.Bin? && Linked(n, s) && Apart(s) && Ordered(s) && only.Bin? && Linked(c, only)
    requires (only == s.right && s.left.Nil?) || (only == s.left && s.right.Nil?)
    modifies n
    ensures Linked(n, u) && Apart(u) && Ordered(u) && Nodes(u) <= Nodes(s)
    ensures InOrder(u) == InOrder(s.left) + InOrder(s.right)
  {
    assert allocated(Nodes(s));
    u := only.(node := n);
    assert InOrder(u) == InOrder(only);
    n.data, n.left, n.right := c.data, c.left, c.right;
  }

  /** n takes over the smallest pair to its right, or its only child. */
  method TakeOver(n: Node, ghost s: Shape) returns (ghost u: Shape)
    requires Linked(n, s) && Apart(s) && Ordered(s) && (n.left != null || n.right != null)
    modifies Nodes(s)
    ensures s.Bin? && Linked(n, u) && Apart(u) && Ordered(u) && Nodes(u) <= Nodes(s)
    ensures InOrder(u) == InOrder(s.left) + InOrder(s.right)
  {
    if n.left != null && n.right != null {
      u := ReplaceByMin(n, s);
    } else if n.right != null {
      u := Assign(n, n.right, s, s.right);
    } else {
      u := Assign(n, n.left, s, s.left);
    }
  }

  /** Hanging q, of shape v, under n. */
  method SetChild(n: Node, left: bool, q: Node?, ghost s: Shape, ghost v: Shape) returns (ghost u: Shape)
    requires s.Bin? && Linked(n, s) && Apart(s) && Linked(q, v) && n !in Nodes(v)
    modifies n
    ensures u == if left then s.(left := v) else s.(right := v)
    ensures Linked(n, u) && n.data == old(n.data)
  {
    assert allocated(Nodes(s)) && allocated(Nodes(v));
    u := if left then s.(left := v) else s.(right := v);
    if left {
      n.left := q;
    } else {
      n.right := q;
    }
  }
}
