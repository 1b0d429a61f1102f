/** The B-tree on values: trees, their contents and shape, and each routine of the
    tree as a function. BTreeNodes.dfy has the nodes updated in place. */
module BTreeModel {
  import opened Options
  import opened SortedSeq

  /** A node with its two parallel vectors; Null is an empty child slot. */
  datatype Tree = Null | Node(values: seq<KV>, children: seq<Tree>)

  predicate IsLeaf(t: Tree)
    requires t.Node?
  {
    |t.children| == 0 || t.children[0].Null?
  }

  // ---------------------------------------------------------------- contents

  ghost function InOrder(t: Tree): seq<KV>
    decreases t, 0
  {
    if t.Null? then []
    else if |t.children| == |t.values| + 1 && !IsLeaf(t) then Weave(t.values, t.children)
    else t.values
  }

  /** Children and separators interleaved. */
  ghost function Weave(vs: seq<KV>, cs: seq<Tree>): seq<KV>
    requires |cs| == |vs| + 1
    decreases cs, 1
  {
    if vs == [] then InOrder(cs[0]) else InOrder(cs[0]) + [vs[0]] + Weave(vs[1..], cs[1..])
  }

  // ------------------------------------------------------------------- shape

  /** The most values a node holds between operations. */
  function Most(degree: nat): nat {
    if degree - 1 <= 3 then 3 else degree - 1
  }

  /** Every leaf is h levels below t and every node strictly below t is Full.
      A leaf's slots are all null and outnumber its values, except that the
      rightmost leaf of the whole tree (on the path where last stays true) may have
      only as many slots as values. */
  ghost predicate Level(t: Tree, h: nat, last: bool, degree: nat)
    decreases h
  {
    && t.Node?
    && if h == 0 then
         && |t.children| >= |t.values| + (if last then 0 else 1)
         && forall i :: 0 <= i < |t.children| ==> t.children[i].Null?
       else
         && |t.children| == |t.values| + 1
         && forall i :: 0 <= i < |t.children| ==>
              && t.children[i].Node?
              && 1 <= |t.children[i].values| <= Most(degree)
              && Level(t.children[i], h - 1, last && i == |t.values|, degree)
  }

  ghost predicate Full(t: Tree, h: nat, last: bool, degree: nat) {
    t.Node? && 1 <= |t.values| <= Most(degree) && Level(t, h, last, degree)
  }

  /** As Level, but child i may be empty: the state a rebalance repairs. */
  ghost predicate LevelBut(t: Tree, h: nat, last: bool, degree: nat, i: nat) {
    && h > 0 && t.Node? && |t.children| == |t.values| + 1 && i <= |t.values|
    && t.children[i].Node?
    && Level(t.children[i], h - 1, last && i == |t.values|, degree)
    && |t.children[i].values| <= Most(degree)
    && forall j :: 0 <= j < |t.children| && j != i ==>
         Full(t.children[j], h - 1, last && j == |t.values|, degree)
  }

  lemma LeafLevel(t: Tree, h: nat, last: bool, degree: nat)
    requires Level(t, h, last, degree)
    ensures IsLeaf(t) <==> h == 0
  {
  }

  lemma ChildFull(t: Tree, h: nat, last: bool, degree: nat, i: nat)
    requires Level(t, h, last, degree) && h > 0 && i < |t.children|
    ensures Full(t.children[i], h - 1, last && i == |t.values|, degree)
    ensures Level(t.children[i], h - 1, last && i == |t.values|, degree)
    ensures 1 <= |t.children[i].values| <= Most(degree)
  {
  }

  lemma ReplaceChild(t: Tree, h: nat, last: bool, degree: nat, i: nat, c: Tree)
    requires Level(t, h, last, degree) && h > 0 && i < |t.children|
    requires Level(c, h - 1, last && i == |t.values|, degree) && |c.values| <= Most(degree)
    ensures LevelBut(Node(t.values, t.children[i := c]), h, last, degree, i)
    ensures 1 <= |c.values| ==> Level(Node(t.values, t.children[i := c]), h, last, degree)
  {
  }

  // ---------------------------------------------------------------- routines

  function RemoveAt<T>(s: seq<T>, i: nat): seq<T>
    requires i < |s|
  {
    s[..i] + s[i + 1..]
  }

  function EmplaceAt<T>(s: seq<T>, i: nat, x: T): seq<T>
    requires i <= |s|
  {
    s[..i] + [x] + s[i..]
  }

  function SetChild(cs: seq<Tree>, i: nat, c: Tree): seq<Tree>
    requires i <= |cs|
  {
    if i == |cs| then cs + [c] else cs[i := c]
  }

  /** Adds a value and, at the same index, a null slot. */
  function InsertInto(t: Tree, kv: KV): (r: Tree)
    requires t.Node? && |t.values| <= |t.children|
    ensures r.Node? && |r.values| == |t.values| + 1 && |r.children| == |t.children| + 1
  {
    var i := LowerBound(t.values, kv.key);
    Node(EmplaceAt(t.values, i, kv), EmplaceAt(t.children, i, Null))
  }

  function SplitLeft(t: Tree): Tree
    requires t.Node? && 0 < |t.values| <= |t.children|
  {
    var mid := |t.values| / 2;
    Node(t.values[..mid], t.children[..mid + 1])
  }

  function SplitRight(t: Tree): Tree
    requires t.Node? && 0 < |t.values| <= |t.children|
  {
    var mid := |t.values| / 2;
    Node(t.values[mid + 1..], t.children[mid + 1..])
  }

  function SplitInto(t: Tree, parent: Tree): (p: Tree)
    requires t.Node? && 0 < |t.values| <= |t.children|
    requires parent.Node? && |parent.values| <= |parent.children|
    ensures p.Node? && |p.values| == |parent.values| + 1 && |p.values| <= |p.children|
  {
    var kv := t.values[|t.values| / 2];
    var i := LowerBound(parent.values, kv.key);
    var p := InsertInto(parent, kv);
    Node(p.values, SetChild(SetChild(p.children, i, SplitLeft(t)), i + 1, SplitRight(t)))
  }

  datatype InsertResult = InsertResult(tree: Tree, fits: bool)

  function InsertIntoLeaf(t: Tree, kv: KV, degree: nat, ghost h: nat, ghost last: bool): (r: InsertResult)
    requires degree >= 3 && Level(t, h, last, degree)
    ensures r.tree.Node? && |r.tree.values| <= |r.tree.children|
    ensures !r.fits ==> degree <= |r.tree.values|
    decreases h
  {
    LeafLevel(t, h, last, degree);
    if !IsLeaf(t) then
      var i := LowerBound(t.values, kv.key);
      ChildFull(t, h, last, degree, i);
      var r := InsertIntoLeaf(t.children[i], kv, degree, h - 1, last && i == |t.values|);
      var curr := Node(t.values, t.children[i := r.tree]);
      if !r.fits then
        var p := SplitInto(r.tree, curr);
        InsertResult(p, |p.values| < degree)
      else
        InsertResult(curr, true)
    else
      var p := InsertInto(t, kv);
      InsertResult(p, |p.values| < degree)
  }

  /** Whole-tree insertion; the height grows when the root splits. */
  function InsertRoot(root: Tree, kv: KV, degree: nat, ghost h: nat): Tree
    requires degree >= 3 && (root.Null? || Level(root, h, true, degree))
  {
    var base := if root.Null? then Node([], []) else root;
    var r := InsertIntoLeaf(base, kv, degree, if root.Null? then 0 else h, true);
    if r.fits then r.tree else SplitInto(r.tree, Node([], []))
  }

  predicate Underflows(t: Tree, degree: nat)
    requires t.Node? && degree >= 1
  {
    |t.values| < degree - 1
  }

  datatype Trio = Trio(left: Tree, mid: KV, right: Tree)

  /** The separator moves down to the left, the right's first value moves up. */
  function RotatedLeft(l: Tree, sep: KV, r: Tree): Trio
    requires l.Node? && r.Node? && 1 <= |r.values| && 1 <= |r.children|
  {
    Trio(Node(l.values + [sep], l.children + [r.children[0]]),
         r.values[0],
         Node(RemoveAt(r.values, 0), RemoveAt(r.children, 0)))
  }

  function RotatedRight(l: Tree, sep: KV, r: Tree): Trio
    requires l.Node? && r.Node? && 1 <= |l.values| < |l.children|
  {
    Trio(Node(RemoveAt(l.values, |l.values| - 1), RemoveAt(l.children, |l.values|)),
         l.values[|l.values| - 1],
         Node([sep] + r.values, [l.children[|l.children| - 1]] + r.children))
  }

  function Merged(l: Tree, sep: KV, r: Tree): Tree
    requires l.Node? && r.Node? && |l.values| <= |l.children|
  {
    var grown := InsertInto(l, sep);
    Node(grown.values + r.values, RemoveAt(grown.children, LowerBound(l.values, sep.key)) + r.children)
  }

  /** The left child of the pair a rebalance at value index i works on. */
  function LeftOf(p: Tree, i: nat): (k: nat)
    requires p.Node? && i < |p.children| && 2 <= |p.children|
    ensures k + 1 < |p.children|
  {
    if i == |p.children| - 1 then i - 1 else i
  }

  /** Child short (one of the pair) may be empty. */
  ghost predicate ShortPair(p: Tree, k: nat, degree: nat, h: nat, last: bool, short: nat) {
    degree >= 3 && LevelBut(p, h, last, degree, short) && k < |p.values| && (short == k || short == k + 1)
  }

  function RotateLeft(p: Tree, k: nat, degree: nat, ghost h: nat, ghost last: bool, ghost short: nat): (q: Tree)
    requires ShortPair(p, k, degree, h, last, short)
    requires |p.children[k].values| < Most(degree) && 1 < |p.children[k + 1].values|
    ensures Level(q, h, last, degree) && |q.values| == |p.values|
  {
    PairLevels(p, k, degree, h, last, short);
    var l, sep, r := p.children[k], p.values[k], p.children[k + 1];
    RotatedLeftLevel(l, sep, r, degree, h - 1, last && k + 1 == |p.values|);
    ReplacePair(p, k, degree, h, last, short, RotatedLeft(l, sep, r));
    WithPair(p, k, RotatedLeft(l, sep, r))
  }

  function RotateRight(p: Tree, k: nat, degree: nat, ghost h: nat, ghost last: bool, ghost short: nat): (q: Tree)
    requires ShortPair(p, k, degree, h, last, short)
    requires |p.children[k + 1].values| < Most(degree) && 1 < |p.children[k].values|
    ensures Level(q, h, last, degree) && |q.values| == |p.values|
  {
    PairLevels(p, k, degree, h, last, short);
    var l, sep, r := p.children[k], p.values[k], p.children[k + 1];
    RotatedRightLevel(l, sep, r, degree, h - 1, last && k + 1 == |p.values|);
    ReplacePair(p, k, degree, h, last, short, RotatedRight(l, sep, r));
    WithPair(p, k, RotatedRight(l, sep, r))
  }

  function Merge(p: Tree, k: nat, degree: nat, ghost h: nat, ghost last: bool, ghost short: nat): (q: Tree)
    requires ShortPair(p, k, degree, h, last, short)
    requires |p.children[k].values| <= 1 && |p.children[k + 1].values| <= 1
    ensures Level(q, h, last, degree) && |q.values| == |p.values| - 1
  {
    PairLevels(p, k, degree, h, last, short);
    var l, sep, r := p.children[k], p.values[k], p.children[k + 1];
    MergedLevel(l, sep, r, degree, h - 1, last && k + 1 == |p.values|);
    MergePair(p, k, degree, h, last, short, Merged(l, sep, r));
    WithMerged(p, k, Merged(l, sep, r))
  }

  function Rebalance(p: Tree, i: nat, degree: nat, ghost h: nat, ghost last: bool, ghost short: nat): (q: Tree)
    requires p.Node? && 1 <= |p.values| && i < |p.children| == |p.values| + 1
    requires ShortPair(p, LeftOf(p, i), degree, h, last, short)
    ensures Level(q, h, last, degree)
    ensures |p.values| - 1 <= |q.values| <= |p.values|
  {
    var k := LeftOf(p, i);
    PairLevels(p, k, degree, h, last, short);
    var l, r := p.children[k], p.children[k + 1];
    if Underflows(l, degree) && |r.values| > 1 then RotateLeft(p, k, degree, h, last, short)
    else if Underflows(r, degree) && |l.values| > 1 then RotateRight(p, k, degree, h, last, short)
    else if Underflows(l, degree) || Underflows(r, degree) then Merge(p, k, degree, h, last, short)
    else p
  }

  function WithPair(p: Tree, k: nat, x: Trio): Tree
    requires p.Node? && k < |p.values| && |p.children| == |p.values| + 1
  {
    Node(p.values[k := x.mid], p.children[k := x.left][k + 1 := x.right])
  }

  function WithMerged(p: Tree, k: nat, m: Tree): Tree
    requires p.Node? && k < |p.values| && |p.children| == |p.values| + 1
  {
    Node(RemoveAt(p.values, k), RemoveAt(p.children[k := m], k + 1))
  }

  /** The last slot is the one after the last value, or all slots are null. */
  ghost predicate OneSlotMoreOrNull(t: Tree)
    requires t.Node?
  {
    |t.children| == |t.values| + 1 || forall j :: 0 <= j < |t.children| ==> t.children[j].Null?
  }

  /** What the indexing in a rebalance of the pair at k relies on. */
  ghost predicate PairReady(p: Tree, k: nat) {
    && p.Node? && k < |p.values| && |p.children| == |p.values| + 1
    && p.children[k].Node? && |p.children[k].values| < |p.children[k].children|
    && OneSlotMoreOrNull(p.children[k])
    && p.children[k + 1].Node? && |p.children[k + 1].values| <= |p.children[k + 1].children|
  }

  /** The four outcomes of a rebalance. */
  function Rebalanced(p: Tree, k: nat, degree: nat): Tree
    requires degree >= 3 && PairReady(p, k)
  {
    var l, sep, r := p.children[k], p.values[k], p.children[k + 1];
    if Underflows(l, degree) && |r.values| > 1 then WithPair(p, k, RotatedLeft(l, sep, r))
    else if Underflows(r, degree) && |l.values| > 1 then WithPair(p, k, RotatedRight(l, sep, r))
    else if Underflows(l, degree) || Underflows(r, degree) then WithMerged(p, k, Merged(l, sep, r))
    else p
  }

  lemma RebalanceChoice(p: Tree, k: nat, degree: nat, l: Tree, r: Tree, q: Tree)
    requires degree >= 3 && PairReady(p, k) && l == p.children[k] && r == p.children[k + 1]
    requires q == Rebalanced(p, k, degree)
    ensures if Underflows(l, degree) && |r.values| > 1 then q == WithPair(p, k, RotatedLeft(l, p.values[k], r))
            else if Underflows(r, degree) && |l.values| > 1 then q == WithPair(p, k, RotatedRight(l, p.values[k], r))
            else if Underflows(l, degree) || Underflows(r, degree) then q == WithMerged(p, k, Merged(l, p.values[k], r))
            else q == p
  {
  }

  lemma RebalanceCases(p: Tree, i: nat, degree: nat, h: nat, last: bool, short: nat)
    requires p.Node? && 1 <= |p.values| && i < |p.children| == |p.values| + 1
    requires ShortPair(p, LeftOf(p, i), degree, h, last, short)
    ensures PairReady(p, LeftOf(p, i))
    ensures Rebalance(p, i, degree, h, last, short) == Rebalanced(p, LeftOf(p, i), degree)
  {
    var k := LeftOf(p, i);
    PairLevels(p, k, degree, h, last, short);
    RebalanceChoice(p, k, degree, p.children[k], p.children[k + 1], Rebalanced(p, k, degree));
  }

  /** How many values the left and the right child of a pair hold afterwards: one too few is
      fewer than degree - 1, and only a sibling that keeps a value lends one. */
  ghost predicate Shared(a: nat, b: nat, degree: nat, p: Tree, k: nat, q: Tree)
    requires p.Node? && q.Node? && degree >= 3
  {
    if a < degree - 1 && b > 1 then Counts(q, k, |p.children|, a + 1, b - 1)
    else if b < degree - 1 && a > 1 then Counts(q, k, |p.children|, a - 1, b + 1)
    else if a < degree - 1 || b < degree - 1 then
      |q.children| == |p.children| - 1 && k < |q.children| && q.children[k].Node? && |q.children[k].values| == a + 1 + b
    else q == p
  }

  predicate Counts(q: Tree, k: nat, n: nat, a: nat, b: nat)
    requires q.Node?
  {
    && |q.children| == n && k + 1 < n && q.children[k].Node? && q.children[k + 1].Node?
    && |q.children[k].values| == a && |q.children[k + 1].values| == b
  }

  lemma RebalancedCounts(p: Tree, k: nat, degree: nat, l: Tree, r: Tree, q: Tree)
    requires degree >= 3 && PairReady(p, k) && l == p.children[k] && r == p.children[k + 1]
    requires q == Rebalanced(p, k, degree)
    ensures q.Node? && Shared(|l.values|, |r.values|, degree, p, k, q)
  {
  }

  /** Rebalancing at an index works on that child and the next, at the last one on it and the
      one before. */
  lemma RebalanceCounts(p: Tree, i: nat, degree: nat, h: nat, last: bool, short: nat, k: nat)
    requires p.Node? && 1 <= |p.values| && i < |p.children| == |p.values| + 1
    requires ShortPair(p, LeftOf(p, i), degree, h, last, short) && k == if i == |p.values| then i - 1 else i
    ensures p.children[k].Node? && p.children[k + 1].Node? && Rebalance(p, i, degree, h, last, short).Node?
    ensures Shared(|p.children[k].values|, |p.children[k + 1].values|, degree, p, k,
                   Rebalance(p, i, degree, h, last, short))
  {
    RebalanceCases(p, i, degree, h, last, short);
    RebalancedCounts(p, k, degree, p.children[k], p.children[k + 1], Rebalanced(p, k, degree));
  }

  lemma PairLevels(p: Tree, k: nat, degree: nat, h: nat, last: bool, short: nat)
    requires degree >= 3 && LevelBut(p, h, last, degree, short)
    requires k < |p.values| && (short == k || short == k + 1)
    ensures p.children[k].Node? && p.children[k + 1].Node?
    ensures Level(p.children[k], h - 1, false, degree)
    ensures Level(p.children[k + 1], h - 1, last && k + 1 == |p.values|, degree)
    ensures |p.children[k].values| <= Most(degree) && |p.children[k + 1].values| <= Most(degree)
    ensures 1 <= |p.children[k].values| || 1 <= |p.children[k + 1].values|
    ensures 1 <= |p.children[k].values| && 1 <= |p.children[k + 1].values| ==> Level(p, h, last, degree)
    ensures |p.children[k].values| < |p.children[k].children|
    ensures |p.children[k + 1].values| <= |p.children[k + 1].children|
  {
    var other := if k == short then k + 1 else k;
    assert Full(p.children[other], h - 1, last && other == |p.values|, degree);
  }

  lemma ReplacePair(p: Tree, k: nat, degree: nat, h: nat, last: bool, short: nat, x: Trio)
    requires LevelBut(p, h, last, degree, short)
    requires k < |p.values| && (short == k || short == k + 1)
    requires Full(x.left, h - 1, false, degree)
    requires Full(x.right, h - 1, last && k + 1 == |p.values|, degree)
    ensures Level(WithPair(p, k, x), h, last, degree)
  {
  }

  lemma MergePair(p: Tree, k: nat, degree: nat, h: nat, last: bool, short: nat, m: Tree)
    requires LevelBut(p, h, last, degree, short)
    requires k < |p.values| && (short == k || short == k + 1)
    requires Full(m, h - 1, last && k + 1 == |p.values|, degree)
    ensures Level(WithMerged(p, k, m), h, last, degree)
  {
    var q := WithMerged(p, k, m);
    forall i | 0 <= i < |q.children|
      ensures Full(q.children[i], h - 1, last && i == |q.values|, degree)
    {
      if i != k {
        var j := if i < k then i else i + 1;
        assert q.children[i] == p.children[j];
        assert Full(p.children[j], h - 1, last && j == |p.values|, degree);
      }
    }
  }

  lemma RotatedLeftLevel(l: Tree, sep: KV, r: Tree, degree: nat, h: nat, last: bool)
    requires Level(l, h, false, degree) && Level(r, h, last, degree) && 2 <= |r.values|
    ensures Level(RotatedLeft(l, sep, r).left, h, false, degree)
    ensures Level(RotatedLeft(l, sep, r).right, h, last, degree)
  {
  }

  lemma RotatedRightLevel(l: Tree, sep: KV, r: Tree, degree: nat, h: nat, last: bool)
    requires Level(l, h, false, degree) && Level(r, h, last, degree) && 2 <= |l.values|
    ensures Level(RotatedRight(l, sep, r).left, h, false, degree)
    ensures Level(RotatedRight(l, sep, r).right, h, last, degree)
  {
  }

  lemma MergedLevel(l: Tree, sep: KV, r: Tree, degree: nat, h: nat, last: bool)
    requires Level(l, h, false, degree) && Level(r, h, last, degree)
    ensures Level(Merged(l, sep, r), h, last, degree)
  {
    var i := LowerBound(l.values, sep.key);
    assert RemoveAt(EmplaceAt(l.children, i, Null), i) == l.children;
  }

  datatype StealResult = StealResult(tree: Tree, max: KV)

  function StealMax(t: Tree, degree: nat, ghost h: nat, ghost last: bool): (r: StealResult)
    requires degree >= 3 && Level(t, h, last, degree) && 1 <= |t.values|
    ensures Level(r.tree, h, last, degree)
    ensures |t.values| - 1 <= |r.tree.values| <= |t.values|
    decreases h
  {
    LeafLevel(t, h, last, degree);
    var n := |t.values|;
    if IsLeaf(t) then
      StealResult(Node(RemoveAt(t.values, n - 1), t.children), t.values[n - 1])
    else
      ChildFull(t, h, last, degree, n);
      // The last child: there is one child more than values.
      var r := StealMax(t.children[n], degree, h - 1, last);
      ReplaceChild(t, h, last, degree, n, r.tree);
      StealResult(Rebalance(Node(t.values, t.children[n := r.tree]), n - 1, degree, h, last, n), r.max)
  }

  datatype RemoveResult = RemoveResult(tree: Tree, found: bool, rebalance: bool)

  function RemoveFrom(t: Tree, key: int, degree: nat, ghost h: nat, ghost last: bool): (r: RemoveResult)
    requires degree >= 3 && Level(t, h, last, degree) && (h > 0 ==> 1 <= |t.values|)
    ensures Level(r.tree, h, last, degree)
    ensures |t.values| - 1 <= |r.tree.values| <= |t.values|
    ensures !r.rebalance ==> r.tree == t
    decreases h
  {
    LeafLevel(t, h, last, degree);
    var i := LowerBound(t.values, key);
    var found := i < |t.values| && t.values[i].key == key;
    if !found then
      if IsLeaf(t) then
        RemoveResult(t, false, false)
      else
        ChildFull(t, h, last, degree, i);
        var r := RemoveFrom(t.children[i], key, degree, h - 1, last && i == |t.values|);
        var curr := Node(t.values, t.children[i := r.tree]);
        ReplaceChild(t, h, last, degree, i, r.tree);
        if r.rebalance then
          RemoveResult(Rebalance(curr, i, degree, h, last, i), r.found, r.rebalance)
        else
          RemoveResult(curr, r.found, r.rebalance)
    else if IsLeaf(t) then
      RemoveResult(Node(RemoveAt(t.values, i), t.children), true, true)
    else
      ChildFull(t, h, last, degree, i);
      var r := StealMax(t.children[i], degree, h - 1, last && i == |t.values|);
      ReplaceChild(t, h, last, degree, i, r.tree);
      var curr := Node(t.values[i := r.max], t.children[i := r.tree]);
      RemoveResult(Rebalance(curr, i, degree, h, last, i), true, true)
  }

  /** Whole-tree removal: a root left with exactly one child slot is replaced by it. */
  function RemoveRoot(root: Tree, key: int, degree: nat, ghost h: nat): Tree
    requires degree >= 3 && (root.Null? || (Level(root, h, true, degree) && (h > 0 ==> 1 <= |root.values|)))
  {
    if root.Null? then root
    else
      var r := RemoveFrom(root, key, degree, h, true);
      if |r.tree.children| == 1 then r.tree.children[0] else r.tree
  }

  function Find(t: Tree, key: int, ghost h: nat, ghost last: bool, ghost degree: nat): Option<Value>
    requires Level(t, h, last, degree)
    decreases h
  {
    LeafLevel(t, h, last, degree);
    var i := LowerBound(t.values, key);
    if i < |t.values| && t.values[i].key == key then Some(t.values[i].value)
    else if IsLeaf(t) then None
    else
      ChildFull(t, h, last, degree, i);
      Find(t.children[i], key, h - 1, last && i == |t.values|, degree)
  }

  // ------------------------------------------------ one level of each routine

  /** r is what t becomes once its last child became c. */
  ghost predicate StolenBelow(t: Tree, k: nat, degree: nat, c: StealResult, r: StealResult)
    requires degree >= 3 && t.Node? && k < |t.children|
  {
    var curr := Node(t.values, t.children[k := c.tree]);
    && 1 <= k && PairReady(curr, k - 1)
    && r == StealResult(Rebalanced(curr, k - 1, degree), c.max)
  }

  /** Stealing through an inner node: the last child, then a rebalance. */
  lemma StealBelow(t: Tree, degree: nat, h: nat, last: bool, k: nat)
    requires degree >= 3 && Level(t, h, last, degree) && 1 <= |t.values| && h > 0 && k == |t.values|
    ensures |t.children| == k + 1 && Full(t.children[k], h - 1, last, degree)
    ensures StolenBelow(t, k, degree, StealMax(t.children[k], degree, h - 1, last), StealMax(t, degree, h, last))
  {
    assert Full(t.children[k], h - 1, last, degree) by { ChildFull(t, h, last, degree, k); }
    var r := StealMax(t.children[k], degree, h - 1, last);
    StealRebalance(t, degree, h, last, k, r);
    StealUnfolds(t, degree, h, last, k, r);
  }

  lemma StealUnfolds(t: Tree, degree: nat, h: nat, last: bool, k: nat, r: StealResult)
    requires degree >= 3 && Level(t, h, last, degree) && 1 <= |t.values| && h > 0 && k == |t.values|
    requires |t.children| == k + 1 && Full(t.children[k], h - 1, last, degree)
    requires r == StealMax(t.children[k], degree, h - 1, last)
    requires ShortPair(Node(t.values, t.children[k := r.tree]), LeftOf(Node(t.values, t.children[k := r.tree]), k - 1),
                       degree, h, last, k)
    ensures StealMax(t, degree, h, last) ==
            StealResult(Rebalance(Node(t.values, t.children[k := r.tree]), k - 1, degree, h, last, k), r.max)
  {
    LeafLevel(t, h, last, degree);
  }

  lemma StealRebalance(t: Tree, degree: nat, h: nat, last: bool, k: nat, r: StealResult)
    requires degree >= 3 && Level(t, h, last, degree) && 1 <= |t.values| && h > 0 && k == |t.values|
    requires Level(r.tree, h - 1, last, degree) && |r.tree.values| <= Most(degree)
    ensures var curr := Node(t.values, t.children[k := r.tree]);
            && ShortPair(curr, LeftOf(curr, k - 1), degree, h, last, k)
            && PairReady(curr, k - 1)
            && Rebalance(curr, k - 1, degree, h, last, k) == Rebalanced(curr, k - 1, degree)
  {
    ReplaceChild(t, h, last, degree, k, r.tree);
    RebalanceCases(Node(t.values, t.children[k := r.tree]), k - 1, degree, h, last, k);
  }

  /** r is what t becomes once child i, which did not hold the key, became c. */
  ghost predicate RemovedBelow(t: Tree, i: nat, degree: nat, c: RemoveResult, r: RemoveResult)
    requires degree >= 3 && t.Node? && i < |t.children|
  {
    var curr := Node(t.values, t.children[i := c.tree]);
    && 2 <= |t.children| && PairReady(curr, LeftOf(curr, i))
    && r == RemoveResult(if c.rebalance then Rebalanced(curr, LeftOf(curr, i), degree) else curr, c.found, c.rebalance)
  }

  /** Removing through an inner node that does not hold the key. */
  lemma RemoveInChild(t: Tree, key: int, degree: nat, h: nat, last: bool, i: nat)
    requires degree >= 3 && Level(t, h, last, degree) && 1 <= |t.values| && h > 0
    requires i == LowerBound(t.values, key) && !(i < |t.values| && t.values[i].key == key)
    ensures |t.children| == |t.values| + 1 && Full(t.children[i], h - 1, last && i == |t.values|, degree)
    ensures RemovedBelow(t, i, degree, RemoveFrom(t.children[i], key, degree, h - 1, last && i == |t.values|),
                         RemoveFrom(t, key, degree, h, last))
  {
    LeafLevel(t, h, last, degree);
    ChildFull(t, h, last, degree, i);
    var r := RemoveFrom(t.children[i], key, degree, h - 1, last && i == |t.values|);
    ReplaceChild(t, h, last, degree, i, r.tree);
    RebalanceCases(Node(t.values, t.children[i := r.tree]), i, degree, h, last, i);
  }

  /** r is what t becomes once the largest pair of child i, now c, replaced value i. */
  ghost predicate ReplacedHere(t: Tree, i: nat, degree: nat, c: StealResult, r: RemoveResult)
    requires degree >= 3 && t.Node? && i < |t.values| && i < |t.children|
  {
    var curr := Node(t.values[i := c.max], t.children[i := c.tree]);
    && 2 <= |t.children| && PairReady(curr, LeftOf(curr, i))
    && r == RemoveResult(Rebalanced(curr, LeftOf(curr, i), degree), true, true)
  }

  /** Removing a key an inner node holds. */
  lemma RemoveHere(t: Tree, key: int, degree: nat, h: nat, last: bool, i: nat)
    requires degree >= 3 && Level(t, h, last, degree) && 1 <= |t.values| && h > 0
    requires i == LowerBound(t.values, key) && i < |t.values| && t.values[i].key == key
    ensures |t.children| == |t.values| + 1 && Full(t.children[i], h - 1, false, degree)
    ensures ReplacedHere(t, i, degree, StealMax(t.children[i], degree, h - 1, false),
                         RemoveFrom(t, key, degree, h, last))
  {
    LeafLevel(t, h, last, degree);
    ChildFull(t, h, last, degree, i);
    var r := StealMax(t.children[i], degree, h - 1, false);
    ReplaceChild(t, h, last, degree, i, r.tree);
    RebalanceCases(Node(t.values[i := r.max], t.children[i := r.tree]), i, degree, h, last, i);
  }
}
