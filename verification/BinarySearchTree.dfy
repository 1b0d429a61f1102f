/** The public binary search tree: emplace, find and remove as loops over the nodes. */
module BinarySearchTrees {
  import opened Options
  import opened SortedSeq
  import opened StableSeq
  import opened TreeShape
  import opened SearchTree

  class BinarySearchTree {
    var root: Node?
    ghost var shape: Shape

    ghost predicate Valid()
      reads this, Nodes(shape)
    {
      Linked(root, shape) && Apart(shape) && Ordered(shape)
    }

    /** The pairs in order. */
    ghost function Contents(): seq<KV>
      reads this
    {
      InOrder(shape)
    }

    constructor ()
      ensures Valid() && Contents() == [] && Nodes(shape) == {}
    {
      root, shape := null, Nil;
    }

    /** Finds the oldest pair with the key. */
    method Find(key: int) returns (r: Option<KV>)
      requires Valid()
      ensures r == FindFirst(Contents(), key)
    {
      var n := root;
      ghost var path: seq<bool> := [];
      while n != null
        invariant On(shape, path) && Hole(root, shape, path, n) && Linked(n, Sub(shape, path))
        invariant Narrowed(shape, path, key)
        decreases Sub(shape, path)
      {
        if key == n.data.key {
          SearchEnds(shape, path, key);
          return Some(n.data);
        }
        var left := key < n.data.key;
        HoleDown(root, shape, path, n, left);
        TurnNarrowed(shape, path, key, left);
        Turn(shape, path, left);
        n := if left then n.left else n.right;
        path := path + [left];
      }
      SearchEnds(shape, path, key);
      r := None;
    }

    /** The node under which a new pair with this key belongs. */
    method Spot(key: int) returns (n: Node, ghost path: seq<bool>)
      requires Valid() && root != null
      ensures On(shape, path) && Hole(root, shape, path, n) && Linked(n, Sub(shape, path))
      ensures Between(shape, path, key) && Sub(shape, path).Bin?
      ensures if key < n.data.key then n.left == null else n.right == null
    {
      n, path := root, [];
      while true
        invariant On(shape, path) && Hole(root, shape, path, n) && Linked(n, Sub(shape, path))
        invariant Between(shape, path, key) && Sub(shape, path).Bin?
        decreases Sub(shape, path)
      {
        var left := key < n.data.key;
        if (if left then n.left else n.right) == null {
          break;
        }
        HoleDown(root, shape, path, n, left);
        TurnBetween(shape, path, key, left);
        Turn(shape, path, left);
        n := if left then n.left else n.right;
        path := path + [left];
      }
    }

    /** Adds a pair after every pair with the same key. */
    method Emplace(key: int, value: Value)
      requires Valid()
      modifies this, Nodes(shape)
      ensures Valid() && Contents() == StableInsert(old(Contents()), KV(key, value))
      ensures fresh(Nodes(shape) - old(Nodes(shape)))
    {
      var x := KV(key, value);
      if root == null {
        root := new Node(x);
        shape := Bin(root, x, Nil, Nil);
      } else {
        EmplaceBelow(x);
      }
    }

    /** Adds a pair to a tree that has one. */
    method EmplaceBelow(x: KV)
      requires Valid() && root != null
      modifies this, Nodes(shape)
      ensures Valid() && Contents() == StableInsert(old(Contents()), x)
      ensures fresh(Nodes(shape) - old(Nodes(shape)))
    {
      assert allocated(Nodes(shape));
      var n, path := Spot(x.key);
      SubNodes(shape, path);
      assert allocated(Nodes(Sub(shape, path)));
      var m := new Node(x);
      var left := x.key < n.data.key;
      ghost var t := shape;
      Hang(n, left, m, path, Bin(m, x, Nil, Nil));
      EmplaceShape(t, path, x, m, left, shape);
    }

    /** Hanging q, of shape v, under the node at path. */
    method Hang(n: Node, left: bool, q: Node?, ghost path: seq<bool>, ghost v: Shape)
      requires On(shape, path) && Apart(shape) && Hole(root, shape, path, n)
      requires Sub(shape, path).Bin? && Linked(n, Sub(shape, path)) && Linked(q, v) && n !in Nodes(v)
      modifies this`shape, n
      ensures var s := Sub(old(shape), path);
              shape == Graft(old(shape), path, if left then s.(left := v) else s.(right := v))
      ensures Linked(root, shape) && n.data == old(n.data)
    {
      assert allocated(Nodes(shape)) && allocated(Nodes(v));
      SubNodes(shape, path);
      ghost var u := SetChild(n, left, q, Sub(shape, path), v);
      Fill(root, shape, path, n, u);
      ghost var t := Graft(shape, path, u);
      assert Linked(root, t) && allocated(Nodes(t));
      shape := t;
    }

    /** What a removing walk knows about the parent of the place it stands at. */
    ghost predicate Above(path: seq<bool>, parent: Node?, leftChild: bool)
      requires Apart(shape)
      reads this, Nodes(shape)
    {
      if path == [] then parent == null
      else
        var up := path[..|path| - 1];
        && path == up + [leftChild] && On(shape, up) && Sub(shape, up).Bin? && Hole(root, shape, up, parent)
        && (SubNodes(shape, up); Linked(parent, Sub(shape, up)))
    }

    /** The topmost node with the key, and its parent. */
    method Locate(key: int) returns (parent: Node?, n: Node?, leftChild: bool, ghost path: seq<bool>)
      requires Valid()
      ensures On(shape, path) && Hole(root, shape, path, n) && Linked(n, Sub(shape, path))
      ensures Narrowed(shape, path, key) && (n != null ==> n.data.key == key)
      ensures Above(path, parent, leftChild)
    {
      parent, n, leftChild, path := null, root, false, [];
      while n != null && n.data.key != key
        invariant On(shape, path) && Hole(root, shape, path, n) && Linked(n, Sub(shape, path))
        invariant Narrowed(shape, path, key) && Above(path, parent, leftChild)
        decreases Sub(shape, path)
      {
        leftChild := key < n.data.key;
        HoleDown(root, shape, path, n, leftChild);
        TurnNarrowed(shape, path, key, leftChild);
        Turn(shape, path, leftChild);
        assert (path + [leftChild])[..|path + [leftChild]| - 1] == path;
        parent := n;
        n := if leftChild then n.left else n.right;
        path := path + [leftChild];
      }
    }

    /** The root goes: its only child takes its place, or the smallest pair to its
        right, or nothing. */
    method RemoveRoot(key: int)
      requires Valid() && root != null && root.data.key == key
      modifies this, Nodes(shape)
      ensures Valid() && Contents() == RemoveFirst(old(Contents()), key)
      ensures Nodes(shape) <= old(Nodes(shape))
    {
      assert allocated(Nodes(shape));
      ghost var s, u := shape, shape;
      assert Linked(root.left, s.left) && Linked(root.right, s.right);
      if root.left != null && root.right != null {
        u := ReplaceByMin(root, s);
      } else if root.right != null {
        u := s.right;
        root := root.right;
      } else if root.left != null {
        u := s.left;
        root := root.left;
      } else {
        u := Nil;
        root := null;
      }
      RemoveShape(s, [], key, u);
      shape := u;
    }

    /** A leaf below a parent goes. */
    method DropLeaf(parent: Node, n: Node, leftChild: bool, ghost path: seq<bool>)
      requires Valid() && On(shape, path) && Linked(n, Sub(shape, path)) && Narrowed(shape, path, n.data.key)
      requires n.left == null && n.right == null && path != [] && Above(path, parent, leftChild)
      modifies this, Nodes(shape)
      ensures Valid() && Contents() == RemoveFirst(old(Contents()), old(n.data.key))
      ensures Nodes(shape) <= old(Nodes(shape))
    {
      assert allocated(Nodes(shape));
      ghost var up := path[..|path| - 1];
      SubNodes(shape, up);
      RemoveShape(shape, path, n.data.key, Nil);
      GraftTwice(shape, up, leftChild, Nil);
      Hang(parent, leftChild, null, up, Nil);
    }

    /** A node with children goes: it takes over the smallest pair to its right, or its
        only child. */
    method RemoveInner(n: Node, ghost path: seq<bool>)
      requires Valid() && On(shape, path) && Hole(root, shape, path, n) && Linked(n, Sub(shape, path))
      requires Narrowed(shape, path, n.data.key) && (n.left != null || n.right != null)
      modifies this, Nodes(shape)
      ensures Valid() && Contents() == RemoveFirst(old(Contents()), old(n.data.key))
      ensures Nodes(shape) <= old(Nodes(shape))
    {
      assert allocated(Nodes(shape));
      ghost var t, s, key := shape, Sub(shape, path), n.data.key;
      SubNodes(t, path);
      SubOrdered(t, path);
      ghost var u := TakeOver(n, s);
      Fill(root, t, path, n, u);
      RemoveShape(t, path, key, u);
      shape := Graft(t, path, u);
    }

    /** Removes the oldest pair with the key; without one, nothing happens. */
    method Remove(key: int)
      requires Valid()
      modifies this, Nodes(shape)
      ensures Valid() && Contents() == RemoveFirst(old(Contents()), key)
      ensures Nodes(shape) <= old(Nodes(shape))
    {
      assert allocated(Nodes(shape));
      var parent, n, leftChild, path := Locate(key);
      SearchEnds(shape, path, key);
      if n == null {
        return;
      }
      if parent == null {
        RemoveRoot(key);
      } else if n.left == null && n.right == null {
        DropLeaf(parent, n, leftChild, path);
      } else {
        RemoveInner(n, path);
      }
    }
  }
}
