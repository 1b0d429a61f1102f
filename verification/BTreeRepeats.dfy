/** Why keys must not repeat: a run from the empty tree that inserts a present key and in
    which a later split drops a pair. */
module BTreeRepeats {
  import opened Seqs
  import opened SortedSeq
  import opened BTreeModel
  import opened BTreeOrder
  import opened BTreeRefinement

  /** t' is what t of height h becomes when the pair is inserted. */
  ghost predicate Puts(t: Tree, kv: KV, h: nat, t': Tree) {
    (t.Null? || Level(t, h, true, 3)) && t' == InsertRoot(t, kv, 3, h)
  }

  ghost predicate Erases(t: Tree, key: int, h: nat, t': Tree) {
    t.Node? && Level(t, h, true, 3) && (h > 0 ==> 1 <= |t.values|) && t' == RemoveRoot(t, key, 3, h)
  }

  function Slots(n: nat): seq<Tree> {
    Copies(n, Null)
  }

  /** A leaf with these values and n slots. */
  function Leaf(vs: seq<KV>, n: nat): Tree {
    Node(vs, Slots(n))
  }

  lemma SlotAdded(n: nat, i: nat)
    requires i <= n
    ensures EmplaceAt(Slots(n), i, Null) == Slots(n + 1)
  {
    CopiesSplit(n, Null, i);
    assert [Null] == Copies(1, Null);
    CopiesJoin(i, 1, Null);
    CopiesJoin(i + 1, n - i, Null);
  }

  lemma SlotGone(n: nat, i: nat)
    requires i < n
    ensures RemoveAt(Slots(n), i) == Slots(n - 1)
  {
    CopiesSplit(n, Null, i);
    CopiesSplit(n, Null, i + 1);
    CopiesJoin(i, n - i - 1, Null);
  }

  /** The halves of a leaf. */
  lemma LeafSplits(vs: seq<KV>, n: nat, mid: nat)
    requires 0 < |vs| <= n && mid == |vs| / 2
    ensures SplitLeft(Leaf(vs, n)) == Leaf(vs[..mid], mid + 1)
    ensures SplitRight(Leaf(vs, n)) == Leaf(vs[mid + 1..], n - mid - 1)
  {
    CopiesSplit(n, Null, mid + 1);
  }

  lemma LeafOk(vs: seq<KV>, n: nat, last: bool)
    requires n >= |vs| + (if last then 0 else 1)
    ensures Level(Leaf(vs, n), 0, last, 3) && InOrder(Leaf(vs, n)) == vs
  {
    InOrderOfLevel(Leaf(vs, n), 0, last, 3);
  }

  /** A pair goes to index i of a leaf. */
  lemma LeafTakes(vs: seq<KV>, n: nat, last: bool, kv: KV, i: nat, ws: seq<KV>)
    requires n >= |vs| + (if last then 0 else 1) && i == LowerBound(vs, kv.key)
    requires ws == EmplaceAt(vs, i, kv)
    ensures Level(Leaf(vs, n), 0, last, 3)
    ensures InsertIntoLeaf(Leaf(vs, n), kv, 3, 0, last) == InsertResult(Leaf(ws, n + 1), |ws| < 3)
  {
    LeafOk(vs, n, last);
    LeafLevel(Leaf(vs, n), 0, last, 3);
    SlotAdded(n, i);
  }

  /** A root over two leaves. */
  function Over(l: Tree, v: KV, r: Tree): Tree {
    Node([v], [l, r])
  }

  lemma OverOk(l: Tree, v: KV, r: Tree)
    requires Level(l, 0, false, 3) && Level(r, 0, true, 3) && 1 <= |l.values| <= 3 && 1 <= |r.values| <= 3
    ensures Level(Over(l, v, r), 1, true, 3) && InOrder(Over(l, v, r)) == InOrder(l) + [v] + InOrder(r)
  {
    OneValue(l, v, r, 3, 0);
  }

  /** Insertion below a root that does not overflow, into child i, which becomes c. */
  lemma RootTakes(s: Tree, kv: KV, i: nat, c: InsertResult, t: Tree)
    requires Level(s, 1, true, 3) && i == LowerBound(s.values, kv.key)
    requires Level(s.children[i], 0, i == |s.values|, 3)
    requires c == InsertIntoLeaf(s.children[i], kv, 3, 0, i == |s.values|)
    requires t == (if c.fits then Node(s.values, s.children[i := c.tree])
                   else SplitInto(c.tree, Node(s.values, s.children[i := c.tree])))
    requires |t.values| < 3
    ensures t == InsertRoot(s, kv, 3, 1)
  {
    InsertUnfold(s, kv, 3, 1, true, i, c);
  }

  /** Insertion below such a root into its left leaf, which fits. */
  lemma LeftTakes(l: Tree, v: KV, r: Tree, kv: KV, c: Tree)
    requires Level(l, 0, false, 3) && Level(r, 0, true, 3) && 1 <= |l.values| <= 3 && 1 <= |r.values| <= 3
    requires kv.key <= v.key && InsertIntoLeaf(l, kv, 3, 0, false) == InsertResult(c, true)
    ensures Level(Over(l, v, r), 1, true, 3) && Over(c, v, r) == InsertRoot(Over(l, v, r), kv, 3, 1)
  {
    OverOk(l, v, r);
    assert [l, r][0 := c] == [c, r];
    RootTakes(Over(l, v, r), kv, 0, InsertResult(c, true), Over(c, v, r));
  }

  /** And into its right leaf, which becomes c. */
  lemma RightTakes(l: Tree, v: KV, r: Tree, kv: KV, c: InsertResult, t: Tree)
    requires Level(l, 0, false, 3) && Level(r, 0, true, 3) && 1 <= |l.values| <= 3 && 1 <= |r.values| <= 3
    requires v.key < kv.key && c == InsertIntoLeaf(r, kv, 3, 0, true)
    requires t == (if c.fits then Over(l, v, c.tree) else SplitInto(c.tree, Over(l, v, c.tree))) && |t.values| < 3
    ensures Level(Over(l, v, r), 1, true, 3) && t == InsertRoot(Over(l, v, r), kv, 3, 1)
  {
    OverOk(l, v, r);
    LowerBoundIs([v], kv.key, 1);
    assert [l, r][1 := c.tree] == [l, c.tree];
    RootTakes(Over(l, v, r), kv, 1, c, t);
  }

  lemma First(a: Value) returns (t: Tree)
    ensures t == Leaf([KV(1, a)], 1) && Puts(Null, KV(1, a), 0, t)
  {
    t := Leaf([KV(1, a)], 1);
    assert Node([], []) == Leaf([], 0);
    LeafTakes([], 0, true, KV(1, a), 0, [KV(1, a)]);
  }

  lemma Second(a: Value, b: Value) returns (t: Tree)
    ensures t == Leaf([KV(1, b), KV(1, a)], 2) && Puts(Leaf([KV(1, a)], 1), KV(1, b), 0, t)
  {
    t := Leaf([KV(1, b), KV(1, a)], 2);
    LeafTakes([KV(1, a)], 1, true, KV(1, b), 0, [KV(1, b), KV(1, a)]);
  }

  /** The third pair splits the root. */
  lemma Third(a: Value, b: Value, c: Value) returns (t: Tree)
    ensures t == Over(Leaf([KV(1, c)], 2), KV(1, b), Leaf([KV(1, a)], 1))
    ensures Puts(Leaf([KV(1, b), KV(1, a)], 2), KV(1, c), 0, t)
  {
    t := Over(Leaf([KV(1, c)], 2), KV(1, b), Leaf([KV(1, a)], 1));
    var vs := [KV(1, c), KV(1, b), KV(1, a)];
    LeafTakes([KV(1, b), KV(1, a)], 2, true, KV(1, c), 0, vs);
    LeafSplits(vs, 3, 1);
    assert vs[..1] == [KV(1, c)] && vs[2..] == [KV(1, a)];
    RootHalves(Leaf(vs, 3));
  }

  /** A larger key goes to the right. */
  lemma Fourth(a: Value, b: Value, c: Value, f: Value) returns (t: Tree)
    ensures t == Over(Leaf([KV(1, c)], 2), KV(1, b), Leaf([KV(1, a), KV(2, f)], 2))
    ensures Puts(Over(Leaf([KV(1, c)], 2), KV(1, b), Leaf([KV(1, a)], 1)), KV(2, f), 1, t)
  {
    var l, ws := Leaf([KV(1, c)], 2), [KV(1, a), KV(2, f)];
    t := Over(l, KV(1, b), Leaf(ws, 2));
    LeafOk([KV(1, c)], 2, false);
    assert LowerBound([KV(1, a)], 2) == 1 by { LowerBoundIs([KV(1, a)], 2, 1); }
    LeafTakes([KV(1, a)], 1, true, KV(2, f), 1, ws);
    RightTakes(l, KV(1, b), Leaf([KV(1, a)], 1), KV(2, f), InsertResult(Leaf(ws, 2), true), t);
  }

  /** The key again goes to the left. */
  lemma Fifth(a: Value, b: Value, c: Value, d: Value, f: Value) returns (t: Tree)
    ensures t == Over(Leaf([KV(1, d), KV(1, c)], 3), KV(1, b), Leaf([KV(1, a), KV(2, f)], 2))
    ensures Puts(Over(Leaf([KV(1, c)], 2), KV(1, b), Leaf([KV(1, a), KV(2, f)], 2)), KV(1, d), 1, t)
  {
    var r, ws := Leaf([KV(1, a), KV(2, f)], 2), [KV(1, d), KV(1, c)];
    t := Over(Leaf(ws, 3), KV(1, b), r);
    LeafOk([KV(1, a), KV(2, f)], 2, true);
    LeafTakes([KV(1, c)], 2, false, KV(1, d), 0, ws);
    LeftTakes(Leaf([KV(1, c)], 2), KV(1, b), r, KV(1, d), Leaf(ws, 3));
  }

  lemma LeafErases(a: Value, f: Value)
    ensures Level(Leaf([KV(1, a), KV(2, f)], 2), 0, true, 3)
    ensures RemoveFrom(Leaf([KV(1, a), KV(2, f)], 2), 2, 3, 0, true) == RemoveResult(Leaf([KV(1, a)], 2), true, true)
  {
    var vs := [KV(1, a), KV(2, f)];
    LeafOk(vs, 2, true);
    LeafLevel(Leaf(vs, 2), 0, true, 3);
    LowerBoundIs(vs, 2, 1);
    assert RemoveAt(vs, 1) == [KV(1, a)];
  }

  /** Without the larger key the right leaf borrows the separator, and the left one's last
      pair, of the same key, takes its place. */
  lemma Borrows(a: Value, b: Value, c: Value, d: Value, t: Tree)
    requires t == Over(Leaf([KV(1, d), KV(1, c)], 3), KV(1, b), Leaf([KV(1, a)], 2))
    ensures PairReady(t, 0)
    ensures Rebalanced(t, 0, 3) == Over(Leaf([KV(1, d)], 2), KV(1, c), Leaf([KV(1, b), KV(1, a)], 3))
  {
    var l, r := Leaf([KV(1, d), KV(1, c)], 3), Leaf([KV(1, a)], 2);
    RebalanceChoice(t, 0, 3, l, r, Rebalanced(t, 0, 3));
    var x := RotatedRight(l, KV(1, b), r);
    SlotGone(3, 2);
    assert RemoveAt(l.values, 1) == [KV(1, d)];
    assert [Null] == Copies(1, Null);
    CopiesJoin(1, 2, Null);
    assert x.left == Leaf([KV(1, d)], 2) && x.right == Leaf([KV(1, b), KV(1, a)], 3);
    assert [l, r][0 := x.left][1 := x.right] == [x.left, x.right];
  }

  lemma Sixth(a: Value, b: Value, c: Value, d: Value, f: Value) returns (t: Tree)
    ensures t == Over(Leaf([KV(1, d)], 2), KV(1, c), Leaf([KV(1, b), KV(1, a)], 3))
    ensures Erases(Over(Leaf([KV(1, d), KV(1, c)], 3), KV(1, b), Leaf([KV(1, a), KV(2, f)], 2)), 2, 1, t)
  {
    t := Over(Leaf([KV(1, d)], 2), KV(1, c), Leaf([KV(1, b), KV(1, a)], 3));
    var l, r := Leaf([KV(1, d), KV(1, c)], 3), Leaf([KV(1, a), KV(2, f)], 2);
    var s := Over(l, KV(1, b), r);
    LeafOk([KV(1, d), KV(1, c)], 3, false);
    LeafErases(a, f);
    OverOk(l, KV(1, b), r);
    LowerBoundIs([KV(1, b)], 2, 1);
    RemoveInChild(s, 2, 3, 1, true, 1);
    assert [l, r][1 := Leaf([KV(1, a)], 2)] == [l, Leaf([KV(1, a)], 2)];
    Borrows(a, b, c, d, Over(l, KV(1, b), Leaf([KV(1, a)], 2)));
  }

  /** The right leaf splits, and its separator, of the key that stands before it, sorts
      before the left leaf: the halves replace the left leaf. */
  lemma SplitsWrongly(a: Value, b: Value, c: Value, d: Value, e: Value, n: Tree, t: Tree)
    requires n == Leaf([KV(1, b), KV(1, a), KV(3, e)], 4)
    requires t == SplitInto(n, Over(Leaf([KV(1, d)], 2), KV(1, c), n))
    ensures t == Node([KV(1, a), KV(1, c)], [Leaf([KV(1, b)], 2), Leaf([KV(3, e)], 2), n])
  {
    var curr := Over(Leaf([KV(1, d)], 2), KV(1, c), n);
    SplitReplacesAtBound(n, curr);
    LeafSplits(n.values, 4, 1);
    assert n.values[..1] == [KV(1, b)] && n.values[2..] == [KV(3, e)];
    assert curr.children[..0] + [SplitLeft(n), SplitRight(n)] + curr.children[1..] == [SplitLeft(n), SplitRight(n), n];
    assert EmplaceAt(curr.values, 0, KV(1, a)) == [KV(1, a), KV(1, c)];
  }

  lemma Seventh(a: Value, b: Value, c: Value, d: Value, e: Value) returns (t: Tree)
    ensures t == Node([KV(1, a), KV(1, c)],
                      [Leaf([KV(1, b)], 2), Leaf([KV(3, e)], 2), Leaf([KV(1, b), KV(1, a), KV(3, e)], 4)])
    ensures Puts(Over(Leaf([KV(1, d)], 2), KV(1, c), Leaf([KV(1, b), KV(1, a)], 3)), KV(3, e), 1, t)
  {
    var l, r, ws := Leaf([KV(1, d)], 2), Leaf([KV(1, b), KV(1, a)], 3), [KV(1, b), KV(1, a), KV(3, e)];
    LeafOk([KV(1, d)], 2, false);
    LowerBoundIs([KV(1, b), KV(1, a)], 3, 2);
    LeafTakes([KV(1, b), KV(1, a)], 3, true, KV(3, e), 2, ws);
    var n := Leaf(ws, 4);
    t := SplitInto(n, Over(l, KV(1, c), n));
    SplitsWrongly(a, b, c, d, e, n, t);
    RightTakes(l, KV(1, c), r, KV(3, e), InsertResult(n, false), t);
  }

  lemma WeaveOfThree(v: KV, w: KV, x: Tree, y: Tree, z: Tree)
    ensures Weave([v, w], [x, y, z]) == InOrder(x) + [v] + (InOrder(y) + [w] + InOrder(z))
  {
    assert [v, w][1..] == [w] && [x, y, z][1..] == [y, z] && [y, z][1..] == [z];
    assert Weave([w], [y, z]) == InOrder(y) + [w] + Weave([], [z]);
  }

  lemma Lost(a: Value, b: Value, c: Value, d: Value, e: Value, t: Tree)
    requires d !in {a, b, c}
    requires t == Node([KV(1, a), KV(1, c)],
                       [Leaf([KV(1, b)], 2), Leaf([KV(3, e)], 2), Leaf([KV(1, b), KV(1, a), KV(3, e)], 4)])
    ensures KV(1, d) !in InOrder(t)
  {
    LeafOk([KV(1, b)], 2, false);
    LeafOk([KV(3, e)], 2, false);
    LeafOk([KV(1, b), KV(1, a), KV(3, e)], 4, true);
    WeaveOfThree(KV(1, a), KV(1, c), t.children[0], t.children[1], t.children[2]);
    assert InOrder(t) == Weave(t.values, t.children);
    assert InOrder(t) == [KV(1, b), KV(1, a), KV(3, e), KV(1, c), KV(1, b), KV(1, a), KV(3, e)];
  }

  lemma Kept(a: Value, b: Value, c: Value, d: Value, t: Tree)
    requires t == Over(Leaf([KV(1, d)], 2), KV(1, c), Leaf([KV(1, b), KV(1, a)], 3))
    ensures KV(1, d) in InOrder(t)
  {
    LeafOk([KV(1, d)], 2, false);
    LeafOk([KV(1, b), KV(1, a)], 3, true);
    OverOk(t.children[0], KV(1, c), t.children[1]);
    assert InOrder(t)[0] == KV(1, d);
  }

  /** Whatever the values: inserting key 1 four times and key 2 in between, removing key 2
      and inserting key 3 drops a pair of key 1 that was there before. */
  lemma RepeatedKeysLoseAPair(a: Value, b: Value, c: Value, d: Value, e: Value, f: Value)
    returns (t1: Tree, t2: Tree, t3: Tree, t4: Tree, t5: Tree, t6: Tree, t7: Tree)
    requires d !in {a, b, c}
    ensures Puts(Null, KV(1, a), 0, t1) && Puts(t1, KV(1, b), 0, t2) && Puts(t2, KV(1, c), 0, t3)
    ensures Puts(t3, KV(2, f), 1, t4) && Puts(t4, KV(1, d), 1, t5) && Erases(t5, 2, 1, t6) && Puts(t6, KV(3, e), 1, t7)
    ensures KV(1, d) in InOrder(t6) && KV(1, d) !in InOrder(t7)
  {
    t1 := First(a);
    t2 := Second(a, b);
    t3 := Third(a, b, c);
    t4 := Fourth(a, b, c, f);
    t5 := Fifth(a, b, c, d, f);
    t6 := Sixth(a, b, c, d, f);
    t7 := Seventh(a, b, c, d, e);
    Kept(a, b, c, d, t6);
    Lost(a, b, c, d, e, t7);
  }
}
