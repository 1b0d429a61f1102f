/** The public B-tree: a map updated in place. */
module BTree {
  import opened Options
  import opened SortedSeq
  import opened BTreeModel
  import opened BTreeOrder
  import opened BTreeTheorems
  import Nodes = BTreeNodes

  class OrderedMap {
    const degree: nat
    var root: Nodes.TreeNode?
    ghost var height: nat

    ghost function Shape(): Tree
      reads this, root
    {
      if root == null then Null else root.tree
    }

    /** The pairs held. */
    ghost function Contents(): map<int, Value>
      reads this, root
    {
      MapOf(Shape())
    }

    ghost function Footprint(): set<object>
      reads this, root
    {
      if root == null then {this} else {this} + root.Repr
    }

    /** The pairs in the order of the tree. */
    ghost function Pairs(): seq<KV>
      reads this, root
    {
      InOrder(Shape())
    }

    ghost predicate WellShaped()
      reads this, root, if root == null then {} else root.Repr
    {
      (root != null ==> root.Valid()) && Shaped(Shape(), height, degree)
    }

    ghost predicate Valid()
      reads this, root, if root == null then {} else root.Repr
    {
      WellShaped() && Sorted(Pairs())
    }

    constructor (degree: nat)
      requires degree >= 3
      ensures Valid() && fresh(Footprint()) && Contents() == map[] && this.degree == degree
    {
      this.degree := degree;
      root, height := null, 0;
    }

    /** find: the map's value for the key. It touches the nodes of path, and no more: in a
        map of n >= 1 pairs, 2^|path| <= n + 1. */
    method Get(key: int) returns (v: Option<Value>, ghost path: seq<Nodes.TreeNode>)
      requires Valid()
      ensures v == if key in Contents() then Some(Contents()[key]) else None
      ensures if root == null then path == [] else Nodes.Descent(root, key, path)
      ensures Contents() != map[] ==> Pow2(|path|) <= |Contents()| + 1
    {
      if root == null { return None, []; }
      v, path := Nodes.Search(root, key, height, true, degree);
      FindIsMapSelect(Shape(), key, degree, height);
      if Contents() != map[] {
        HeightIsLogarithmic(Shape(), degree, height);
        Pow2Monotone(|path|, height + 1);
      }
    }

    /** insert: the pair goes before the first pair whose key is not smaller. The tree is
        again one with distinct keys, and its map updated, if and only if the key was
        absent. */
    method Insert(kv: KV)
      requires Valid()
      modifies Footprint()
      ensures WellShaped() && fresh(Footprint() - old(Footprint()))
      ensures Pairs() == SortedSeq.Insert(old(Pairs()), kv)
      ensures Valid() <==> old(kv.key !in Contents())
      ensures old(kv.key !in Contents()) ==> Contents() == old(Contents())[kv.key := kv.value]
    {
      ghost var s, h := Shape(), height;
      InsertTree(kv);
      height := InsertedTree(s, kv, degree, h, Shape());
    }

    method InsertTree(kv: KV)
      requires Valid()
      modifies this`root, if root == null then {} else root.Repr
      ensures root != null && root.Valid() && fresh(root.Repr - old(Footprint()))
      ensures Shape() == InsertRoot(old(Shape()), kv, degree, height)
    {
      if root == null { root := new Nodes.TreeNode(); }
      ghost var h := if old(root) == null then 0 else height;
      var fits := Nodes.InsertIntoLeaf(root, kv, degree, h, true);
      if !fits { GrowRoot(); }
    }

    /** A new root over the two halves of the old one. */
    method GrowRoot()
      requires root != null && root.Valid() && 0 < |root.values| <= |root.children|
      modifies this`root
      ensures root != null && root.Valid() && fresh(root.Repr - old(root.Repr))
      ensures root.tree == SplitInto(old(root.tree), Node([], []))
    {
      var newRoot := new Nodes.TreeNode();
      Nodes.SplitInto(root, newRoot);
      root := newRoot;
    }

    /** remove: map removal if and only if the key is present or the root does not
        have exactly one child slot; otherwise the only pair there is goes. */
    method Remove(key: int)
      requires Valid()
      modifies Footprint()
      ensures Valid() && fresh(Footprint() - old(Footprint()))
      ensures Contents() == old(Contents()) - {key} <==>
              old(root == null || key in Contents() || |root.children| != 1)
      ensures old(root != null && key !in Contents() && |root.children| == 1) ==> Contents() == map[]
    {
      ghost var s, h := Shape(), height;
      RemoveKeepsTree(s, key, degree, h);
      RemoveIsMapRemoval(s, key, degree, h);
      RemoveTree(key);
      height := HeightAfterRemove(s, key, degree, h);
    }

    method RemoveTree(key: int)
      requires Valid()
      modifies this`root, if root == null then {} else root.Repr
      ensures root != null ==> root.Valid() && fresh(root.Repr - old(Footprint()))
      ensures Shape() == RemoveRoot(old(Shape()), key, degree, height)
    {
      if root == null { return; }
      var _, _ := Nodes.RemoveFrom(root, key, degree, height, true);
      if |root.children| == 1 {
        assert Nodes.TreeNode.Subtree(root.children[0], root.tree.children[0], root.owned[0]);
        root := root.children[0];
      }
    }
  }
}
