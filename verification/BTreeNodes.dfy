/** B-tree nodes as the library has them: on the heap, with two parallel vectors
    updated in place. Every method is tied to its function in BTreeModel. */
module BTreeNodes {
  import opened Options
  import opened SortedSeq
  import opened BTreeModel
  import opened BTreeRefinement

  class TreeNode {
    var values: seq<KV>
    var children: seq<TreeNode?>
    /** The nodes owned through this one, and through each child slot. */
    ghost var Repr: set<TreeNode>
    ghost var owned: seq<set<TreeNode>>
    /** The value this subtree stands for. */
    ghost var tree: Tree

    /** Slot c holds subtree t, made of exactly the nodes in own. */
    static ghost predicate Subtree(c: TreeNode?, t: Tree, own: set<TreeNode>)
      reads c, own
      decreases own, 1
    {
      if c == null then t.Null? && own == {}
      else c in own && c.Repr == own && c.Valid() && t == c.tree && t.Node?
    }

    ghost predicate Valid()
      reads this, Repr
      decreases Repr, 0
    {
      && this in Repr
      && tree.Node? && tree.values == values
      && |tree.children| == |children| == |owned|
      && (forall i :: 0 <= i < |owned| ==> owned[i] <= Repr && this !in owned[i])
      && (forall i, j :: 0 <= i < j < |owned| ==> owned[i] !! owned[j])
      && (forall i :: 0 <= i < |children| ==> children[i] != null ==> children[i] in Repr)
      && (forall i {:trigger children[i]} ::
            0 <= i < |children| ==> Subtree(children[i], tree.children[i], owned[i]))
    }

    /** Valid but for what the slots in [lo, hi) hold. */
    ghost predicate ValidExcept(lo: nat, hi: nat)
      reads this, Repr
    {
      && this in Repr
      && tree.Node? && tree.values == values
      && |tree.children| == |children| == |owned|
      && (forall i :: 0 <= i < |owned| ==> owned[i] <= Repr && this !in owned[i])
      && (forall i, j :: 0 <= i < j < |owned| ==> owned[i] !! owned[j])
      && (forall i :: 0 <= i < |children| ==> children[i] != null ==> children[i] in Repr)
      && (forall i :: 0 <= i < |children| && !(lo <= i < hi) ==> Subtree(children[i], tree.children[i], owned[i]))
    }

    /** Records what a rotation did to the pair of children at k. */
    method SettlePair(k: nat, l: TreeNode, r: TreeNode, up: KV)
      requires ValidExcept(k, k + 2) && Pair(this, k, l, r) && k < |values|
      requires l.Valid() && r.Valid() && l.Repr !! r.Repr && l.Repr + r.Repr == owned[k] + owned[k + 1]
      requires |children| == |values| + 1
      modifies this
      ensures Valid() && Repr == old(Repr)
      ensures tree == WithPair(old(tree), k, Trio(l.tree, up, r.tree))
    {
      values := values[k := up];
      owned := owned[k := l.Repr][k + 1 := r.Repr];
      tree := WithPair(tree, k, Trio(l.tree, up, r.tree));
    }

    /** Records what a merge did to the pair of children at k. */
    method SettleMerge(k: nat, l: TreeNode)
      requires ValidExcept(k, k + 2) && k + 1 < |children| && children[k] == l && k < |values|
      requires l.Valid() && l.Repr <= owned[k] + owned[k + 1]
      requires |children| == |values| + 1
      modifies this
      ensures Valid() && Repr == old(Repr)
      ensures tree == WithMerged(old(tree), k, l.tree)
    {
      values := RemoveAt(values, k);
      owned := RemoveAt(owned[k := l.Repr], k + 1);
      tree := WithMerged(tree, k, l.tree);
      children := RemoveAt(children, k + 1);
    }

    /** Records what an operation did below child i. */
    ghost method SettleChild(i: nat)
      requires ValidExcept(i, i + 1) && i < |children| && children[i] != null && children[i].Valid()
      requires this !in children[i].Repr
      requires forall j :: 0 <= j < |owned| && j != i ==> owned[j] !! children[i].Repr
      modifies this`tree, this`owned, this`Repr
      ensures Valid() && Repr == old(Repr) + children[i].Repr
      ensures tree == Node(values, old(tree).children[i := children[i].tree])
      ensures owned == old(owned)[i := children[i].Repr]
    {
      owned := owned[i := children[i].Repr];
      tree := Node(values, tree.children[i := children[i].tree]);
      Repr := Repr + children[i].Repr;
    }

    method ReplaceAt(i: nat, kv: KV)
      requires Valid() && i < |values|
      modifies this
      ensures Valid() && Repr == old(Repr) && children == old(children) && owned == old(owned)
      ensures tree == Node(old(tree).values[i := kv], old(tree).children)
    {
      values := values[i := kv];
      tree := Node(values, tree.children);
    }

    /** remove_at: a leaf value goes, its slot stays. */
    method EraseValue(i: nat)
      requires Valid() && i < |values|
      modifies this
      ensures Valid() && Repr == old(Repr)
      ensures tree == Node(RemoveAt(old(tree).values, i), old(tree).children)
    {
      values := RemoveAt(values, i);
      tree := Node(values, tree.children);
    }

    /** remove_child_at for an empty slot. */
    method DropSlot(i: nat)
      requires Valid() && i < |children| && children[i] == null
      modifies this
      ensures Valid() && Repr == old(Repr)
      ensures tree == Node(old(tree).values, RemoveAt(old(tree).children, i))
      ensures owned == RemoveAt(old(owned), i) && children == RemoveAt(old(children), i)
    {
      children := RemoveAt(children, i);
      owned := RemoveAt(owned, i);
      tree := Node(tree.values, RemoveAt(tree.children, i));
    }

    /** Appends the other node's children, one by one, and its values. */
    method Absorb(r: TreeNode)
      requires Valid() && r.Valid() && Repr !! r.Repr
      modifies this, r
      ensures Valid() && Repr == old(Repr) + old(r.Repr) - {r}
      ensures tree == Node(old(tree).values + old(r.tree).values, old(tree).children + old(r.tree).children)
    {
      ghost var n, lo, lt, ro, rt := |children|, owned, tree, r.owned, r.tree;
      var moved := r.children;
      for i := 0 to |moved|
        modifies this`children
        invariant children == old(children) + moved[..i]
      {
        children := children + [moved[i]];
      }
      values := values + r.values;
      r.values := [];
      owned := lo + ro;
      tree := Node(lt.values + rt.values, lt.children + rt.children);
      Repr := Repr + r.Repr - {r};
      forall i | 0 <= i < n ensures Subtree(children[i], tree.children[i], owned[i]) {
        assert old(Subtree(children[i], tree.children[i], owned[i]));
      }
      ghost var mo, mt := ro, rt.children;
      assert forall i :: 0 <= i < |moved| ==> old(Subtree(moved[i], mt[i], mo[i]));
      forall i | n <= i < |children| ensures Subtree(children[i], tree.children[i], owned[i]) {
        assert children[i] == moved[i - n] && owned[i] == mo[i - n] && tree.children[i] == mt[i - n];
      }
    }

    constructor ()
      ensures Valid() && fresh(Repr) && Repr == {this}
      ensures values == [] && children == [] && tree == Node([], [])
    {
      values, children := [], [];
      Repr, owned, tree := {this}, [], Node([], []);
    }

    method LeafTest() returns (leaf: bool)
      requires Valid()
      ensures leaf == IsLeaf(tree)
    {
      leaf := |children| == 0 || children[0] == null;
      assert |children| > 0 ==> Subtree(children[0], tree.children[0], owned[0]);
    }

    /** insert_into: adds the pair and a null slot at its lower bound. */
    method EmplaceValue(kv: KV) returns (index: nat)
      requires Valid() && |values| <= |children|
      modifies this
      ensures Valid() && Repr == old(Repr) && tree == InsertInto(old(tree), kv)
      ensures index == LowerBound(old(values), kv.key)
      ensures values == EmplaceAt(old(values), index, kv)
      ensures children == EmplaceAt(old(children), index, null)
      ensures owned == EmplaceAt(old(owned), index, {})
    {
      index := LowerBound(values, kv.key);
      EmplacedSlots(children, owned, index, Repr, this);
      values := EmplaceAt(values, index, kv);
      children := EmplaceAt(children, index, null);
      owned := EmplaceAt(owned, index, {});
      tree := InsertInto(tree, kv);
      forall i | 0 <= i < |children| ensures Subtree(children[i], tree.children[i], owned[i]) {
        if i != index {
          var j := if i < index then i else i - 1;
          assert old(Subtree(children[j], tree.children[j], owned[j]));
        }
      }
    }

    /** Gives up the last value, and the last child; the slot removed is the one
        after the last value. */
    method PopBack() returns (kv: KV, c: TreeNode?, ghost own: set<TreeNode>)
      requires Valid() && 1 <= |values| < |children|
      requires OneSlotMoreOrNull(tree)
      modifies this
      ensures Valid() && Repr == old(Repr) - own && own <= old(Repr) - {this}
      ensures Subtree(c, old(tree).children[|old(tree).children| - 1], own)
      ensures kv == old(values)[|old(values)| - 1]
      ensures tree == Node(RemoveAt(old(tree).values, |old(values)| - 1),
                           RemoveAt(old(tree).children, |old(values)|))
    {
      var n := |values|;
      ghost var m := |children| - 1;
      assert Subtree(children[m], tree.children[m], owned[m]);
      assert Subtree(children[n], tree.children[n], owned[n]);
      kv, c, own := values[n - 1], children[|children| - 1], owned[m];
      values := values[..n - 1];
      children := children[..n] + children[n + 1..];
      owned := owned[..n] + owned[n + 1..];
      Repr := Repr - own;
      tree := Node(RemoveAt(tree.values, n - 1), RemoveAt(tree.children, n));
    }

    /** Gives up the first value and the first child. */
    method PopFront() returns (kv: KV, c: TreeNode?, ghost own: set<TreeNode>)
      requires Valid() && 1 <= |values| && 1 <= |children|
      modifies this
      ensures Valid() && Repr == old(Repr) - own && own <= old(Repr) - {this}
      ensures Subtree(c, old(tree).children[0], own)
      ensures kv == old(values)[0]
      ensures tree == Node(RemoveAt(old(tree).values, 0), RemoveAt(old(tree).children, 0))
    {
      assert Subtree(children[0], tree.children[0], owned[0]);
      kv, c, own := values[0], children[0], owned[0];
      values, children, owned := values[1..], children[1..], owned[1..];
      Repr := Repr - own;
      tree := Node(RemoveAt(tree.values, 0), RemoveAt(tree.children, 0));
    }

    /** Takes a value and a child at the front. */
    method PushFront(kv: KV, c: TreeNode?, ghost t: Tree, ghost own: set<TreeNode>)
      requires Valid() && Subtree(c, t, own) && own !! Repr
      modifies this
      ensures Valid() && Repr == old(Repr) + own
      ensures tree == Node([kv] + old(tree).values, [t] + old(tree).children)
    {
      values, children, owned := [kv] + values, [c] + children, [own] + owned;
      Repr := Repr + own;
      tree := Node([kv] + tree.values, [t] + tree.children);
    }

    /** Takes a value and a child at the end. */
    method PushBack(kv: KV, c: TreeNode?, ghost t: Tree, ghost own: set<TreeNode>)
      requires Valid() && Subtree(c, t, own) && own !! Repr
      modifies this
      ensures Valid() && Repr == old(Repr) + own
      ensures tree == Node(old(tree).values + [kv], old(tree).children + [t])
    {
      values, children, owned := values + [kv], children + [c], owned + [own];
      Repr := Repr + own;
      tree := Node(tree.values + [kv], tree.children + [t]);
    }
  }

  /** A null slot among the others, made of no nodes. */
  lemma EmplacedSlots(cs: seq<TreeNode?>, o: seq<set<TreeNode>>, i: nat, nodes: set<TreeNode>, n: TreeNode)
    requires i <= |cs| == |o|
    requires forall j :: 0 <= j < |o| ==> o[j] <= nodes && n !in o[j]
    requires forall j, k :: 0 <= j < k < |o| ==> o[j] !! o[k]
    requires forall j :: 0 <= j < |cs| ==> cs[j] != null ==> cs[j] in nodes
    ensures var p := EmplaceAt(o, i, {});
            && (forall j :: 0 <= j < |p| ==> p[j] <= nodes && n !in p[j])
            && (forall j, k :: 0 <= j < k < |p| ==> p[j] !! p[k])
    ensures var ds := EmplaceAt(cs, i, null); forall j :: 0 <= j < |ds| ==> ds[j] != null ==> ds[j] in nodes
  {
    var p := EmplaceAt(o, i, {});
    forall j | 0 <= j < |p| ensures p[j] == if j < i then o[j] else if j == i then {} else o[j - 1] {
    }
    var ds := EmplaceAt(cs, i, null);
    forall j | 0 <= j < |ds| ensures ds[j] == if j < i then cs[j] else if j == i then null else cs[j - 1] {
    }
  }

  /** Two neighbouring children of a node. */
  ghost predicate Pair(parent: TreeNode, k: nat, l: TreeNode, r: TreeNode)
    reads parent
  {
    k + 1 < |parent.children| && parent.children[k] == l && parent.children[k + 1] == r
  }

  /** The pair's own subtrees, apart from each other and from the parent. */
  lemma PairApart(parent: TreeNode, k: nat, l: TreeNode, r: TreeNode)
    requires parent.Valid() && Pair(parent, k, l, r)
    ensures l.Valid() && r.Valid() && l.Repr !! r.Repr
    ensures parent.owned[k] == l.Repr && parent.owned[k + 1] == r.Repr
    ensures parent !in l.Repr && parent !in r.Repr
    ensures parent.tree.children[k] == l.tree && parent.tree.children[k + 1] == r.tree
  {
    assert TreeNode.Subtree(parent.children[k], parent.tree.children[k], parent.owned[k]);
    assert TreeNode.Subtree(parent.children[k + 1], parent.tree.children[k + 1], parent.owned[k + 1]);
  }

  method RotateLeft(parent: TreeNode, k: nat, l: TreeNode, r: TreeNode)
    requires parent.Valid() && Pair(parent, k, l, r) && |parent.children| == |parent.values| + 1
    requires 1 <= |r.values| && 1 <= |r.children|
    modifies parent, l, r
    ensures parent.Valid() && parent.Repr == old(parent.Repr)
    ensures old(l.tree.Node? && r.tree.Node? && 1 <= |r.tree.values| && 1 <= |r.tree.children|)
    ensures parent.tree == WithPair(old(parent.tree), k, RotatedLeft(old(l.tree), old(parent.values)[k], old(r.tree)))
  {
    PairApart(parent, k, l, r);
    var sep := parent.values[k];
    ghost var t := r.tree.children[0];
    var up, c, own := r.PopFront();
    l.PushBack(sep, c, t, own);
    forall i | 0 <= i < |parent.children| && i != k && i != k + 1
      ensures TreeNode.Subtree(parent.children[i], parent.tree.children[i], parent.owned[i])
    {
      assert parent.owned[i] !! old(l.Repr) && parent.owned[i] !! old(r.Repr);
    }
    parent.SettlePair(k, l, r, up);
  }

  method RotateRight(parent: TreeNode, k: nat, l: TreeNode, r: TreeNode)
    requires parent.Valid() && Pair(parent, k, l, r) && |parent.children| == |parent.values| + 1
    requires 1 <= |l.values| < |l.children|
    requires l.Valid() && OneSlotMoreOrNull(l.tree)
    modifies parent, l, r
    ensures parent.Valid() && parent.Repr == old(parent.Repr)
    ensures old(l.tree.Node? && r.tree.Node? && 1 <= |l.tree.values| < |l.tree.children|)
    ensures parent.tree == WithPair(old(parent.tree), k, RotatedRight(old(l.tree), old(parent.values)[k], old(r.tree)))
  {
    PairApart(parent, k, l, r);
    var sep := parent.values[k];
    ghost var t := l.tree.children[|l.tree.children| - 1];
    var up, c, own := l.PopBack();
    r.PushFront(sep, c, t, own);
    forall i | 0 <= i < |parent.children| && i != k && i != k + 1
      ensures TreeNode.Subtree(parent.children[i], parent.tree.children[i], parent.owned[i])
    {
      assert parent.owned[i] !! old(l.Repr) && parent.owned[i] !! old(r.Repr);
    }
    parent.SettlePair(k, l, r, up);
  }

  method Merge(parent: TreeNode, k: nat, l: TreeNode, r: TreeNode)
    requires parent.Valid() && Pair(parent, k, l, r) && |parent.children| == |parent.values| + 1
    requires |l.values| <= |l.children|
    modifies parent, l, r
    ensures parent.Valid() && parent.Repr == old(parent.Repr)
    ensures old(l.tree.Node? && r.tree.Node? && |l.tree.values| <= |l.tree.children|)
    ensures parent.tree == WithMerged(old(parent.tree), k, Merged(old(l.tree), old(parent.values)[k], old(r.tree)))
  {
    PairApart(parent, k, l, r);
    var newIndex := l.EmplaceValue(parent.values[k]);
    l.DropSlot(newIndex);
    l.Absorb(r);
    forall i | 0 <= i < |parent.children| && i != k && i != k + 1
      ensures TreeNode.Subtree(parent.children[i], parent.tree.children[i], parent.owned[i])
    {
      assert parent.owned[i] !! old(l.Repr) && parent.owned[i] !! old(r.Repr);
    }
    parent.SettleMerge(k, l);
  }

  method PairAt(parent: TreeNode, k: nat) returns (l: TreeNode, r: TreeNode)
    requires parent.Valid() && k + 1 < |parent.children|
    requires parent.tree.children[k].Node? && parent.tree.children[k + 1].Node?
    ensures Pair(parent, k, l, r) && l.Valid() && r.Valid() && l in parent.Repr && r in parent.Repr
    ensures l.tree == parent.tree.children[k] && r.tree == parent.tree.children[k + 1]
  {
    assert TreeNode.Subtree(parent.children[k], parent.tree.children[k], parent.owned[k]);
    assert TreeNode.Subtree(parent.children[k + 1], parent.tree.children[k + 1], parent.owned[k + 1]);
    l, r := parent.children[k], parent.children[k + 1];
  }

  method Rebalance(parent: TreeNode, i: nat, degree: nat)
    requires parent.Valid() && degree >= 3 && 2 <= |parent.children| && i < |parent.children|
    requires PairReady(parent.tree, LeftOf(parent.tree, i))
    modifies parent.Repr
    ensures parent.Valid() && parent.Repr == old(parent.Repr)
    ensures parent.tree == Rebalanced(old(parent.tree), LeftOf(old(parent.tree), i), degree)
  {
    var k := i;
    if k == |parent.children| - 1 { k := k - 1; }
    var l, r := PairAt(parent, k);
    RebalanceChoice(parent.tree, k, degree, l.tree, r.tree, Rebalanced(parent.tree, k, degree));
    assert l.values == l.tree.values && r.values == r.tree.values;
    var borrowFromLeft := |l.values| > 1;
    var borrowFromRight := |r.values| > 1;
    if |l.values| < degree - 1 && borrowFromRight {
      RotateLeft(parent, k, l, r);
    } else if |r.values| < degree - 1 && borrowFromLeft {
      RotateRight(parent, k, l, r);
    } else if |l.values| < degree - 1 || |r.values| < degree - 1 {
      Merge(parent, k, l, r);
    }
  }

  method ChildAt(n: TreeNode, i: nat) returns (c: TreeNode)
    requires n.Valid() && i < |n.children| && n.tree.children[i].Node?
    ensures c == n.children[i] && c.Valid() && c.tree == n.tree.children[i]
    ensures c.Repr == n.owned[i] && c.Repr < n.Repr && n !in c.Repr
    ensures forall j :: 0 <= j < |n.owned| && j != i ==> n.owned[j] !! c.Repr
  {
    assert TreeNode.Subtree(n.children[i], n.tree.children[i], n.owned[i]);
    c := n.children[i];
  }

  method StealMax(n: TreeNode, degree: nat, ghost h: nat, ghost last: bool) returns (kv: KV)
    requires n.Valid() && degree >= 3 && Level(n.tree, h, last, degree) && 1 <= |n.values|
    modifies n.Repr
    ensures n.Valid() && n.Repr == old(n.Repr)
    ensures BTreeModel.StealMax(old(n.tree), degree, h, last) == StealResult(n.tree, kv)
    decreases h, 1
  {
    LeafLevel(n.tree, h, last, degree);
    var leaf := n.LeafTest();
    if leaf {
      kv := n.values[|n.values| - 1];
      n.EraseValue(|n.values| - 1);
    } else {
      kv := StealThroughChild(n, degree, h, last);
    }
  }

  /** Steals from child i and records the change in its parent. */
  method StealFromChild(n: TreeNode, i: nat, degree: nat, ghost h: nat, ghost last: bool) returns (kv: KV)
    requires n.Valid() && degree >= 3 && i < |n.children| && Full(n.tree.children[i], h, last, degree)
    modifies n.Repr
    ensures n.Valid() && n.Repr == old(n.Repr) && n.values == old(n.values) && n.children == old(n.children)
    ensures var r := BTreeModel.StealMax(old(n.tree.children[i]), degree, h, last);
            kv == r.max && n.tree == Node(old(n.tree.values), old(n.tree.children)[i := r.tree])
    decreases h, 2
  {
    var c := ChildAt(n, i);
    kv := StealMax(c, degree, h, last);
    n.SettleChild(i);
  }

  method StealThroughChild(n: TreeNode, degree: nat, ghost h: nat, ghost last: bool) returns (kv: KV)
    requires n.Valid() && degree >= 3 && Level(n.tree, h, last, degree) && 1 <= |n.values| && h > 0
    modifies n.Repr
    ensures n.Valid() && n.Repr == old(n.Repr)
    ensures BTreeModel.StealMax(old(n.tree), degree, h, last) == StealResult(n.tree, kv)
    decreases h, 0
  {
    ghost var t, k := n.tree, |n.values|;
    StealBelow(t, degree, h, last, k);
    assert |n.children| == k + 1;
    ghost var c := BTreeModel.StealMax(t.children[k], degree, h - 1, last);
    ghost var r := BTreeModel.StealMax(t, degree, h, last);
    kv := StealFromChild(n, |n.children| - 1, degree, h - 1, last);
    RebalanceLast(n, degree, t, c, r);
  }

  /** The rebalance after the last child was stolen from. */
  method RebalanceLast(n: TreeNode, degree: nat, ghost t: Tree, ghost c: StealResult, ghost r: StealResult)
    requires n.Valid() && degree >= 3 && t.Node? && |t.children| == |n.values| + 1 == |n.children|
    requires StolenBelow(t, |n.values|, degree, c, r) && n.tree == Node(t.values, t.children[|n.values| := c.tree])
    modifies n.Repr
    ensures n.Valid() && n.Repr == old(n.Repr) && r == StealResult(n.tree, c.max)
  {
    Rebalance(n, |n.values| - 1, degree);
  }

  method RemoveFrom(n: TreeNode, key: int, degree: nat, ghost h: nat, ghost last: bool)
    returns (found: bool, rebalance: bool)
    requires n.Valid() && degree >= 3 && Level(n.tree, h, last, degree) && (h > 0 ==> 1 <= |n.values|)
    modifies n.Repr
    ensures n.Valid() && n.Repr == old(n.Repr)
    ensures BTreeModel.RemoveFrom(old(n.tree), key, degree, h, last) == RemoveResult(n.tree, found, rebalance)
    decreases h, 1
  {
    LeafLevel(n.tree, h, last, degree);
    var i := LowerBound(n.values, key);
    var leaf := n.LeafTest();
    if !(i < |n.values| && n.values[i].key == key) {
      if leaf { return false, false; }
      found, rebalance := RemoveThroughChild(n, key, degree, h, last);
    } else if leaf {
      n.EraseValue(i);
      found, rebalance := true, true;
    } else {
      RemoveSeparator(n, key, degree, h, last);
      found, rebalance := true, true;
    }
  }

  /** Removes below child i and records the change in its parent. */
  method RemoveFromChild(n: TreeNode, i: nat, key: int, degree: nat, ghost h: nat, ghost last: bool)
    returns (found: bool, rebalance: bool)
    requires n.Valid() && degree >= 3 && i < |n.children| && Full(n.tree.children[i], h, last, degree)
    modifies n.Repr
    ensures n.Valid() && n.Repr == old(n.Repr) && n.values == old(n.values) && n.children == old(n.children)
    ensures var r := BTreeModel.RemoveFrom(old(n.tree.children[i]), key, degree, h, last);
            && found == r.found && rebalance == r.rebalance
            && n.tree == Node(old(n.tree.values), old(n.tree.children)[i := r.tree])
    decreases h, 2
  {
    var c := ChildAt(n, i);
    found, rebalance := RemoveFrom(c, key, degree, h, last);
    n.SettleChild(i);
  }

  method RemoveThroughChild(n: TreeNode, key: int, degree: nat, ghost h: nat, ghost last: bool)
    returns (found: bool, rebalance: bool)
    requires n.Valid() && degree >= 3 && Level(n.tree, h, last, degree) && 1 <= |n.values| && h > 0
    requires var i := LowerBound(n.values, key); !(i < |n.values| && n.values[i].key == key)
    modifies n.Repr
    ensures n.Valid() && n.Repr == old(n.Repr)
    ensures BTreeModel.RemoveFrom(old(n.tree), key, degree, h, last) == RemoveResult(n.tree, found, rebalance)
    decreases h, 0
  {
    var i := LowerBound(n.values, key);
    RemoveInChild(n.tree, key, degree, h, last, i);
    found, rebalance := RemoveFromChild(n, i, key, degree, h - 1, last && i == |n.values|);
    if rebalance {
      if |n.values| != 0 {
        Rebalance(n, i, degree);
      } else {
        // A node on the path always holds a value, so the branch that collapses an
        // empty child of an empty node is never reached.
        assert false;
      }
    }
  }

  method RemoveSeparator(n: TreeNode, key: int, degree: nat, ghost h: nat, ghost last: bool)
    requires n.Valid() && degree >= 3 && Level(n.tree, h, last, degree) && 1 <= |n.values| && h > 0
    requires var i := LowerBound(n.values, key); i < |n.values| && n.values[i].key == key
    modifies n.Repr
    ensures n.Valid() && n.Repr == old(n.Repr)
    ensures BTreeModel.RemoveFrom(old(n.tree), key, degree, h, last) == RemoveResult(n.tree, true, true)
  {
    var i := LowerBound(n.values, key);
    RemoveHere(n.tree, key, degree, h, last, i);
    var kv := StealFromChild(n, i, degree, h - 1, false);
    n.ReplaceAt(i, kv);
    Rebalance(n, i, degree);
  }

  // ---------------------------------------------------------------- insertion

  ghost function Between(o: seq<set<TreeNode>>, lo: nat, hi: nat): set<TreeNode>
    requires lo <= hi <= |o|
  {
    set i, x | lo <= i < hi && x in o[i] :: x
  }

  /** A new node with part of another's values and children. */
  method Part(n: TreeNode, vlo: nat, vhi: nat, clo: nat, chi: nat) returns (p: TreeNode)
    requires n.Valid() && vlo <= vhi <= |n.values| && clo <= chi <= |n.children|
    ensures p.Valid() && fresh(p) && p.Repr == {p} + Between(n.owned, clo, chi)
    ensures p.tree == Node(n.tree.values[vlo..vhi], n.tree.children[clo..chi])
  {
    p := new TreeNode();
    p.values := n.values[vlo..vhi];
    p.children := n.children[clo..chi];
    p.owned := n.owned[clo..chi];
    p.tree := Node(n.tree.values[vlo..vhi], n.tree.children[clo..chi]);
    p.Repr := {p} + Between(n.owned, clo, chi);
    forall i | 0 <= i < |p.children| ensures TreeNode.Subtree(p.children[i], p.tree.children[i], p.owned[i]) {
      assert TreeNode.Subtree(n.children[clo + i], n.tree.children[clo + i], n.owned[clo + i]);
    }
    forall i | 0 <= i < |p.owned| ensures p.owned[i] <= p.Repr && p !in p.owned[i] {
      assert p.owned[i] == n.owned[clo + i];
    }
  }

  /** set_child at index and index + 1 with the two halves of a split. */
  method SetHalves(parent: TreeNode, index: nat, left: TreeNode, right: TreeNode)
    requires parent.Valid() && index < |parent.children| && parent.children[index] == null
    requires left.Valid() && right.Valid() && left.Repr !! right.Repr
    requires parent !in left.Repr && parent !in right.Repr
    requires forall j :: 0 <= j < |parent.owned| && j != index + 1 ==>
               parent.owned[j] !! left.Repr && parent.owned[j] !! right.Repr
    modifies parent
    ensures parent.Valid() && parent.Repr == old(parent.Repr) + left.Repr + right.Repr
    ensures parent.tree == Node(old(parent.tree).values,
                                SetChild(SetChild(old(parent.tree).children, index, left.tree), index + 1, right.tree))
  {
    ghost var cs, ts, os := parent.children, parent.tree.children, parent.owned;
    parent.children := parent.children[index := left];
    parent.owned := parent.owned[index := left.Repr];
    if index + 1 == |parent.children| {
      parent.children := parent.children + [right];
      parent.owned := parent.owned + [right.Repr];
    } else {
      parent.children := parent.children[index + 1 := right];
      parent.owned := parent.owned[index + 1 := right.Repr];
    }
    parent.Repr := parent.Repr + left.Repr + right.Repr;
    parent.tree := Node(parent.tree.values, SetChild(SetChild(ts, index, left.tree), index + 1, right.tree));
    forall i | 0 <= i < |parent.children| && i != index && i != index + 1
      ensures TreeNode.Subtree(parent.children[i], parent.tree.children[i], parent.owned[i])
    {
      assert old(TreeNode.Subtree(cs[i], ts[i], os[i]));
    }
    assert TreeNode.Subtree(left, left.tree, left.Repr) && TreeNode.Subtree(right, right.tree, right.Repr);
  }

  /** The two halves of a node, as new nodes over its children. */
  method Halves(n: TreeNode) returns (left: TreeNode, right: TreeNode)
    requires n.Valid() && 0 < |n.values| <= |n.children|
    ensures left.Valid() && right.Valid() && left.Repr !! right.Repr && fresh(left) && fresh(right)
    ensures left.Repr <= n.Repr + {left} && right.Repr <= n.Repr + {right}
    ensures left.tree == SplitLeft(n.tree) && right.tree == SplitRight(n.tree)
  {
    var mid := |n.values| / 2;
    left := Part(n, 0, mid, 0, mid + 1);
    right := Part(n, mid + 1, |n.values|, mid + 1, |n.children|);
  }

  /** A child's nodes are its slot's alone. */
  lemma ChildApart(parent: TreeNode, i: nat)
    requires parent.Valid() && i < |parent.children| && parent.children[i] != null
    ensures parent !in parent.children[i].Repr
    ensures forall j :: 0 <= j < |parent.owned| && j != i ==> parent.owned[j] !! parent.children[i].Repr
  {
    assert TreeNode.Subtree(parent.children[i], parent.tree.children[i], parent.owned[i]);
  }

  /** split_into: the node's contents move to two new nodes that take its place in
      the parent, around the separator emplaced at the node's own index. */
  method SplitInto(n: TreeNode, parent: TreeNode)
    requires n.Valid() && 0 < |n.values| <= |n.children|
    requires parent.Valid() && n != parent
    requires if parent.children == [] then parent.values == [] && n.Repr !! parent.Repr else
               var i := LowerBound(parent.values, n.values[|n.values| / 2].key);
               |parent.children| == |parent.values| + 1 && parent.children[i] == n
    modifies parent
    ensures parent.Valid() && fresh(parent.Repr - old(parent.Repr) - old(n.Repr))
    ensures parent.tree == BTreeModel.SplitInto(old(n.tree), old(parent.tree))
  {
    var kv := n.values[|n.values| / 2];
    ghost var own, i := n.Repr, LowerBound(parent.values, kv.key);
    if i < |parent.children| {
      ChildApart(parent, i);
    }
    assert parent !in own && forall j :: 0 <= j < |parent.owned| && j != i ==> parent.owned[j] !! own;
    var left, right := Halves(n);
    PlaceHalves(parent, kv, left, right);
  }

  /** The separator and the halves around it. */
  method PlaceHalves(parent: TreeNode, kv: KV, left: TreeNode, right: TreeNode)
    requires parent.Valid() && |parent.values| <= |parent.children|
    requires left.Valid() && right.Valid() && left.Repr !! right.Repr
    requires parent !in left.Repr && parent !in right.Repr
    requires forall j :: 0 <= j < |parent.owned| && j != LowerBound(parent.values, kv.key) ==>
               parent.owned[j] !! left.Repr && parent.owned[j] !! right.Repr
    modifies parent
    ensures parent.Valid() && parent.Repr == old(parent.Repr) + left.Repr + right.Repr
    ensures var i, p := LowerBound(old(parent.tree).values, kv.key), InsertInto(old(parent.tree), kv);
            parent.tree == Node(p.values, SetChild(SetChild(p.children, i, left.tree), i + 1, right.tree))
  {
    var index := parent.EmplaceValue(kv);
    SetHalves(parent, index, left, right);
  }

  method InsertIntoLeaf(n: TreeNode, kv: KV, degree: nat, ghost h: nat, ghost last: bool) returns (fits: bool)
    requires n.Valid() && Insertable(n.tree, degree, h, last)
    modifies n.Repr
    ensures n.Valid() && fresh(n.Repr - old(n.Repr))
    ensures BTreeModel.InsertIntoLeaf(old(n.tree), kv, degree, h, last) == InsertResult(n.tree, fits)
    decreases h, 1
  {
    LeafLevel(n.tree, h, last, degree);
    var leaf := n.LeafTest();
    if leaf {
      var _ := n.EmplaceValue(kv);
      fits := |n.values| < degree;
    } else {
      fits := InsertThroughChild(n, kv, degree, h, last);
    }
  }

  /** Inserts below child i and records the change in its parent. */
  method InsertInChild(n: TreeNode, i: nat, kv: KV, degree: nat, ghost h: nat, ghost last: bool) returns (fits: bool)
    requires n.Valid() && i < |n.children| && Insertable(n.tree.children[i], degree, h, last)
    modifies n.Repr
    ensures n.Valid() && fresh(n.Repr - old(n.Repr)) && n.values == old(n.values) && n.children == old(n.children)
    ensures var c := BTreeModel.InsertIntoLeaf(old(n.tree.children[i]), kv, degree, h, last);
            fits == c.fits && n.tree == Node(old(n.tree.values), old(n.tree.children)[i := c.tree])
    decreases h, 2
  {
    var c := ChildAt(n, i);
    fits := InsertIntoLeaf(c, kv, degree, h, last);
    n.SettleChild(i);
  }

  method InsertThroughChild(n: TreeNode, kv: KV, degree: nat, ghost h: nat, ghost last: bool) returns (fits: bool)
    requires n.Valid() && Insertable(n.tree, degree, h, last) && h > 0
    modifies n.Repr
    ensures n.Valid() && fresh(n.Repr - old(n.Repr))
    ensures BTreeModel.InsertIntoLeaf(old(n.tree), kv, degree, h, last) == InsertResult(n.tree, fits)
    decreases h, 0
  {
    var i := LowerBound(n.values, kv.key);
    InsertBelow(n.tree, kv, degree, h, last, i);
    fits := InsertInChild(n, i, kv, degree, h - 1, last && i == |n.values|);
    if !fits {
      var c := ChildAt(n, i);
      SplitInto(c, n);
      fits := |n.values| < degree;
    }
  }

  // ------------------------------------------------------------------- lookup

  /** The nodes a lookup has to touch, from n down: each but the last leads on by key, the
      last holds the key or is a leaf. */
  ghost predicate Descent(n: TreeNode, key: int, path: seq<TreeNode>)
    reads n, path
    decreases |path|
  {
    && path != [] && path[0] == n
    && var i := LowerBound(n.values, key);
       if (i < |n.values| && n.values[i].key == key) || n.children == [] || n.children[0] == null then |path| == 1
       else i < |n.children| && |path| > 1 && n.children[i] == path[1] && Descent(path[1], key, path[1..])
  }

  /** node::find: looks the key up below n, touching one node a level at most. */
  method Search(n: TreeNode, key: int, ghost h: nat, ghost last: bool, ghost degree: nat)
    returns (v: Option<Value>, ghost path: seq<TreeNode>)
    requires n.Valid() && Level(n.tree, h, last, degree)
    ensures v == Find(n.tree, key, h, last, degree)
    ensures Descent(n, key, path) && |path| <= h + 1
    decreases h
  {
    LeafLevel(n.tree, h, last, degree);
    path := [n];
    var i := LowerBound(n.values, key);
    if i < |n.values| && n.values[i].key == key { return Some(n.values[i].value), path; }
    var leaf := n.LeafTest();
    if leaf { return None, path; }
    ChildFull(n.tree, h, last, degree, i);
    var c := ChildAt(n, i);
    ghost var below;
    v, below := Search(c, key, h - 1, last && i == |n.values|, degree);
    path := [n] + below;
    assert path[1..] == below;
  }
}
