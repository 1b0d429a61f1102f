/** The B-tree refines a finite map: insertion, removal and lookup act on the
    in-order contents exactly as the abstract operations, and every tree a run
    can reach keeps its shape. */
module BTreeRefinement {
  import opened Options
  import opened SortedSeq
  import opened BTreeModel
  import opened BTreeOrder

  // ---------------------------------------------------------------- rebalance

  lemma RotateLeftOrder(p: Tree, k: nat, degree: nat, h: nat, last: bool, short: nat)
    requires ShortPair(p, k, degree, h, last, short)
    requires |p.children[k].values| < Most(degree) && 1 < |p.children[k + 1].values|
    ensures InOrder(RotateLeft(p, k, degree, h, last, short)) == Weave(p.values, p.children)
  {
    PairLevels(p, k, degree, h, last, short);
    var l, sep, r := p.children[k], p.values[k], p.children[k + 1];
    RotatedLeftOrder(l, sep, r, degree, h - 1, last && k + 1 == |p.values|);
    PairReplaced(p, k, RotatedLeft(l, sep, r));
    InOrderOfLevel(RotateLeft(p, k, degree, h, last, short), h, last, degree);
  }

  lemma RotateRightOrder(p: Tree, k: nat, degree: nat, h: nat, last: bool, short: nat)
    requires ShortPair(p, k, degree, h, last, short)
    requires |p.children[k + 1].values| < Most(degree) && 1 < |p.children[k].values|
    ensures InOrder(RotateRight(p, k, degree, h, last, short)) == Weave(p.values, p.children)
  {
    PairLevels(p, k, degree, h, last, short);
    var l, sep, r := p.children[k], p.values[k], p.children[k + 1];
    RotatedRightOrder(l, sep, r, degree, h - 1, last && k + 1 == |p.values|);
    PairReplaced(p, k, RotatedRight(l, sep, r));
    InOrderOfLevel(RotateRight(p, k, degree, h, last, short), h, last, degree);
  }

  lemma MergeOrder(p: Tree, k: nat, degree: nat, h: nat, last: bool, short: nat)
    requires ShortPair(p, k, degree, h, last, short)
    requires |p.children[k].values| <= 1 && |p.children[k + 1].values| <= 1
    requires Sorted(Weave(p.values, p.children))
    ensures InOrder(Merge(p, k, degree, h, last, short)) == Weave(p.values, p.children)
  {
    PairLevels(p, k, degree, h, last, short);
    var l, sep, r := p.children[k], p.values[k], p.children[k + 1];
    FocusPair(p.values, p.children, k);
    SortedPair(Left(p.values, p.children, k), InOrder(l), sep, InOrder(r), Right(p.values, p.children, k + 1));
    MergedOrder(l, sep, r, degree, h - 1, last && k + 1 == |p.values|);
    PairMerged(p, k, Merged(l, sep, r));
    InOrderOfLevel(Merge(p, k, degree, h, last, short), h, last, degree);
  }

  /** Whatever it does, a rebalance moves no value in key order. */
  lemma RebalanceOrder(p: Tree, i: nat, degree: nat, h: nat, last: bool, short: nat)
    requires p.Node? && 1 <= |p.values| && i < |p.children| == |p.values| + 1
    requires ShortPair(p, LeftOf(p, i), degree, h, last, short)
    requires Sorted(Weave(p.values, p.children))
    ensures InOrder(Rebalance(p, i, degree, h, last, short)) == Weave(p.values, p.children)
  {
    var k := LeftOf(p, i);
    PairLevels(p, k, degree, h, last, short);
    var l, r := p.children[k], p.children[k + 1];
    if Underflows(l, degree) && |r.values| > 1 {
      RotateLeftOrder(p, k, degree, h, last, short);
    } else if Underflows(r, degree) && |l.values| > 1 {
      RotateRightOrder(p, k, degree, h, last, short);
    } else if Underflows(l, degree) || Underflows(r, degree) {
      MergeOrder(p, k, degree, h, last, short);
    } else {
      InOrderOfLevel(p, h, last, degree);
    }
  }

  lemma SortedPair(a: seq<KV>, x: seq<KV>, v: KV, y: seq<KV>, b: seq<KV>)
    requires Sorted(a + (x + [v] + y) + b)
    ensures Sorted(x + [v])
  {
    SortedConcat(a + (x + [v] + y), b);
    SortedConcat(a, x + [v] + y);
    SortedConcat(x + [v], y);
  }

  // ---------------------------------------------------------------- insertion

  /** A key equal to the separator at its lower bound is found there. */
  lemma AtSeparator(t: Tree, key: int, degree: nat, h: nat, last: bool)
    requires Level(t, h, last, degree) && h > 0 && Sorted(InOrder(t))
    requires var i := LowerBound(t.values, key); i < |t.values| && t.values[i].key == key
    ensures var i := LowerBound(t.values, key);
            var a, x, b := Left(t.values, t.children, i), InOrder(t.children[i]), Right(t.values, t.children, i);
            && InOrder(t) == (a + x) + [t.values[i]] + b[1..]
            && Delete(InOrder(t), key) == (a + x) + b[1..]
            && Lookup(InOrder(t), key) == Some(t.values[i].value)
  {
    var i := LowerBound(t.values, key);
    var a, x, b := Left(t.values, t.children, i), InOrder(t.children[i]), Right(t.values, t.children, i);
    InOrderOfLevel(t, h, last, degree);
    Focus(t.values, t.children, i);
    assert b == [t.values[i]] + b[1..];
    assert (a + x) + b == (a + x) + [t.values[i]] + b[1..];
    KnownPosition(a + x, t.values[i], b[1..]);
  }

  /** Any other key belongs in the child at its lower bound, and the abstract
      operations act on that child's contents only. */
  lemma Descend(t: Tree, kv: KV, degree: nat, h: nat, last: bool)
    requires Level(t, h, last, degree) && h > 0 && Sorted(InOrder(t))
    requires var i := LowerBound(t.values, kv.key); !(i < |t.values| && t.values[i].key == kv.key)
    ensures var i := LowerBound(t.values, kv.key);
            var a, x, b := Left(t.values, t.children, i), InOrder(t.children[i]), Right(t.values, t.children, i);
            && Sorted(x)
            && Insert(InOrder(t), kv) == a + Insert(x, kv) + b
            && Delete(InOrder(t), kv.key) == a + Delete(x, kv.key) + b
            && Lookup(InOrder(t), kv.key) == Lookup(x, kv.key)
  {
    var i := LowerBound(t.values, kv.key);
    InOrderOfLevel(t, h, last, degree);
    Focus(t.values, t.children, i);
    LowerBoundSplits(t.values, kv.key);
    if i > 0 { assert t.values[..i][i - 1] == t.values[i - 1]; }
    Within(Left(t.values, t.children, i), InOrder(t.children[i]), Right(t.values, t.children, i), kv);
  }

  lemma MiddleUpTo(a: seq<KV>, x: seq<KV>, mid: KV, y: seq<KV>, b: seq<KV>)
    requires InOrderOfKeys(a + (x + [mid] + y) + b) && b != []
    ensures mid.key <= b[0].key
  {
    var s := a + (x + [mid] + y) + b;
    assert s[|a| + |x|] == mid && s[|a + (x + [mid] + y)|] == b[0];
  }

  /** Where the separator coming up from child i is put: at i, the child's own index, if and
      only if the value before the child has a smaller key. Keys may repeat. */
  lemma SplitIndex(vs: seq<KV>, cs: seq<Tree>, i: nat, x: seq<KV>, mid: KV, y: seq<KV>)
    requires |cs| == |vs| + 1 && i <= |vs|
    requires InOrderOfKeys(Weave(vs, cs)) && InOrder(cs[i]) == x + [mid] + y
    ensures LowerBound(vs, mid.key) == i <==> (i > 0 ==> vs[i - 1].key < mid.key)
  {
    Focus(vs, cs, i);
    if i < |vs| { MiddleUpTo(Left(vs, cs, i), x, mid, y, Right(vs, cs, i)); }
    WeaveInOrder(vs, cs);
    BoundAt(vs, mid.key, i);
  }

  lemma NotBelow(vs: seq<KV>, i: nat, key: int)
    requires 0 < i <= |vs| && key <= vs[i - 1].key
    ensures !Below(vs[..i], key)
  {
    assert vs[..i][i - 1] == vs[i - 1];
  }

  lemma BoundAt(vs: seq<KV>, key: int, i: nat)
    requires InOrderOfKeys(vs) && i <= |vs| && (i < |vs| ==> key <= vs[i].key)
    ensures LowerBound(vs, key) == i <==> (i > 0 ==> vs[i - 1].key < key)
  {
    if i == 0 || vs[i - 1].key < key {
      LowerBoundIs(vs, key, i);
    } else {
      LowerBoundSplits(vs, key);
      NotBelow(vs, i, key);
    }
  }

  /** A child and its two halves: same contents, shape one node wider. */
  lemma SplitParent(curr: Tree, i: nat, degree: nat, h: nat, last: bool, lt: Tree, mid: KV, rt: Tree)
    requires curr.Node? && h > 0 && |curr.children| == |curr.values| + 1 && i <= |curr.values|
    requires Full(lt, h - 1, false, degree) && Full(rt, h - 1, last && i == |curr.values|, degree)
    requires InOrder(curr.children[i]) == InOrder(lt) + [mid] + InOrder(rt)
    requires forall j :: 0 <= j < |curr.children| && j != i ==>
               Full(curr.children[j], h - 1, last && j == |curr.values|, degree)
    ensures var p := Node(EmplaceAt(curr.values, i, mid), curr.children[..i] + [lt, rt] + curr.children[i + 1..]);
            Level(p, h, last, degree) && InOrder(p) == Weave(curr.values, curr.children)
  {
    var p := Node(EmplaceAt(curr.values, i, mid), curr.children[..i] + [lt, rt] + curr.children[i + 1..]);
    SplitParentLevel(curr, i, degree, h, last, lt, mid, rt);
    InOrderOfLevel(p, h, last, degree);
    Focus(curr.values, curr.children, i);
    FocusPair(p.values, p.children, i);
    assert p.values[..i] == curr.values[..i] && p.children[..i] == curr.children[..i];
    assert p.values[i + 1..] == curr.values[i..];
    if i < |curr.values| {
      assert p.children[i + 1..][1..] == curr.children[i..][1..];
    }
  }

  lemma SplitParentLevel(curr: Tree, i: nat, degree: nat, h: nat, last: bool, lt: Tree, mid: KV, rt: Tree)
    requires curr.Node? && h > 0 && |curr.children| == |curr.values| + 1 && i <= |curr.values|
    requires Full(lt, h - 1, false, degree) && Full(rt, h - 1, last && i == |curr.values|, degree)
    requires forall j :: 0 <= j < |curr.children| && j != i ==>
               Full(curr.children[j], h - 1, last && j == |curr.values|, degree)
    ensures var p := Node(EmplaceAt(curr.values, i, mid), curr.children[..i] + [lt, rt] + curr.children[i + 1..]);
            Level(p, h, last, degree)
  {
    var p := Node(EmplaceAt(curr.values, i, mid), curr.children[..i] + [lt, rt] + curr.children[i + 1..]);
    forall j | 0 <= j < |p.children|
      ensures Full(p.children[j], h - 1, last && j == |p.values|, degree)
    {
      if j < i {
        assert p.children[j] == curr.children[j];
      } else if j > i + 1 {
        assert p.children[j] == curr.children[j - 1];
        assert Full(curr.children[j - 1], h - 1, last && j - 1 == |curr.values|, degree);
      }
    }
  }

  /** A null slot, then the two halves set one after the other, amount to
      replacing the child by both. */
  lemma SplitChildren(cs: seq<Tree>, i: nat, lt: Tree, rt: Tree)
    requires i < |cs|
    ensures SetChild(SetChild(EmplaceAt(cs, i, Null), i, lt), i + 1, rt) == cs[..i] + [lt, rt] + cs[i + 1..]
  {
  }

  /** Wherever the separator of a split is put, the halves replace the child at that index:
      when it is not the split child's own, another child is lost. */
  lemma SplitReplacesAtBound(c: Tree, curr: Tree)
    requires c.Node? && 0 < |c.values| <= |c.children| && curr.Node? && |curr.values| < |curr.children|
    ensures var mid := c.values[|c.values| / 2];
            var j := LowerBound(curr.values, mid.key);
            SplitInto(c, curr) == Node(EmplaceAt(curr.values, j, mid),
                                       curr.children[..j] + [SplitLeft(c), SplitRight(c)] + curr.children[j + 1..])
  {
    SplitChildren(curr.children, LowerBound(curr.values, c.values[|c.values| / 2].key), SplitLeft(c), SplitRight(c));
  }

  /** Splitting an overfull child: where the value before it has a smaller key, the
      separator goes to the child's own index and the halves replace the child. */
  lemma SplitAtOwnIndex(curr: Tree, i: nat, degree: nat, h: nat, last: bool)
    requires curr.Node? && h > 0 && |curr.children| == |curr.values| + 1 && i <= |curr.values|
    requires curr.children[i].Node? && 3 <= |curr.children[i].values| <= Most(degree) + 1
    requires Level(curr.children[i], h - 1, last && i == |curr.values|, degree)
    requires forall j :: 0 <= j < |curr.children| && j != i ==>
               Full(curr.children[j], h - 1, last && j == |curr.values|, degree)
    requires InOrderOfKeys(Weave(curr.values, curr.children))
    requires i > 0 ==> curr.values[i - 1].key < curr.children[i].values[|curr.children[i].values| / 2].key
    ensures |curr.children[i].values| <= |curr.children[i].children|
    ensures var c := curr.children[i];
            var p := SplitInto(c, curr);
            && LowerBound(curr.values, c.values[|c.values| / 2].key) == i
            && p.values == EmplaceAt(curr.values, i, c.values[|c.values| / 2])
            && Level(p, h, last, degree)
            && InOrder(p) == Weave(curr.values, curr.children)
  {
    var c := curr.children[i];
    var mid := c.values[|c.values| / 2];
    var lt, rt, clast := SplitLeft(c), SplitRight(c), last && i == |curr.values|;
    SplitLevel(c, h - 1, clast, degree);
    SplitOrder(c, h - 1, clast, degree);
    SplitIndex(curr.values, curr.children, i, InOrder(lt), mid, InOrder(rt));
    SplitParent(curr, i, degree, h, last, lt, mid, rt);
    SplitReplacesAtBound(c, curr);
  }

  /** A node with one value over two subtrees. */
  lemma OneValue(lt: Tree, mid: KV, rt: Tree, degree: nat, h: nat)
    requires Full(lt, h, false, degree) && Full(rt, h, true, degree)
    ensures Level(Node([mid], [lt, rt]), h + 1, true, degree)
    ensures InOrder(Node([mid], [lt, rt])) == InOrder(lt) + [mid] + InOrder(rt)
  {
    var p := Node([mid], [lt, rt]);
    assert Level(p, h + 1, true, degree);
    InOrderOfLevel(p, h + 1, true, degree);
    assert Weave([mid], [lt, rt]) == InOrder(lt) + [mid] + Weave([], [rt]);
  }

  lemma RootHalves(t: Tree)
    requires t.Node? && 0 < |t.values| <= |t.children|
    ensures SplitInto(t, Node([], [])) == Node([t.values[|t.values| / 2]], [SplitLeft(t), SplitRight(t)])
  {
  }

  lemma LeafInsert(t: Tree, kv: KV, degree: nat, last: bool)
    requires Level(t, 0, last, degree)
    ensures Level(InsertInto(t, kv), 0, last, degree)
    ensures InOrder(InsertInto(t, kv)) == Insert(InOrder(t), kv)
  {
    EmplaceAtLowerBound(t.values, kv);
    InOrderOfLevel(t, 0, last, degree);
    InOrderOfLevel(InsertInto(t, kv), 0, last, degree);
  }

  ghost predicate InsertRefines(t: Tree, kv: KV, degree: nat, h: nat, last: bool, r: InsertResult) {
    && Level(r.tree, h, last, degree)
    && 1 <= |r.tree.values| <= (if r.fits then Most(degree) else Most(degree) + 1)
    && (!r.fits ==> degree <= |r.tree.values|)
    && InOrder(r.tree) == Insert(InOrder(t), kv)
  }

  lemma MiddleAbove(c: Tree, degree: nat, h: nat, last: bool, key: int)
    requires Level(c, h, last, degree) && 1 <= |c.values| <= |c.children| && Above(InOrder(c), key)
    ensures key < c.values[|c.values| / 2].key
  {
    SplitOrder(c, h, last, degree);
    assert InOrder(c)[|InOrder(SplitLeft(c))|] == c.values[|c.values| / 2];
  }

  /** Child i of t, which a pair's key leads to, became c: the pair goes into its contents. */
  ghost predicate ChildTook(t: Tree, kv: KV, degree: nat, h: nat, last: bool, i: nat, c: InsertResult) {
    && degree >= 3 && Level(t, h, last, degree) && 1 <= |t.values| <= Most(degree) && h > 0
    && i <= |t.values| && InsertRefines(t.children[i], kv, degree, h - 1, last && i == |t.values|, c)
    && InOrderOfKeys(Insert(InOrder(t), kv))
    && (i > 0 ==> t.values[i - 1].key < kv.key && Above(InOrder(t.children[i]), t.values[i - 1].key))
    && Insert(InOrder(t), kv) ==
       Left(t.values, t.children, i) + Insert(InOrder(t.children[i]), kv) + Right(t.values, t.children, i)
  }

  lemma ChildFits(t: Tree, kv: KV, degree: nat, h: nat, last: bool, i: nat, c: InsertResult)
    requires ChildTook(t, kv, degree, h, last, i, c) && c.fits
    ensures InsertRefines(t, kv, degree, h, last, InsertResult(Node(t.values, t.children[i := c.tree]), true))
  {
    FocusReplace(t.values, t.children, i, c.tree);
    ReplaceChild(t, h, last, degree, i, c.tree);
    InOrderOfLevel(Node(t.values, t.children[i := c.tree]), h, last, degree);
  }

  lemma OthersFull(t: Tree, degree: nat, h: nat, last: bool, i: nat, cs: seq<Tree>)
    requires Level(t, h, last, degree) && h > 0 && i <= |t.values| && |cs| == |t.children|
    requires forall j :: 0 <= j < |cs| && j != i ==> cs[j] == t.children[j]
    ensures forall j :: 0 <= j < |cs| && j != i ==> Full(cs[j], h - 1, last && j == |t.values|, degree)
  {
    forall j | 0 <= j < |cs| && j != i ensures Full(cs[j], h - 1, last && j == |t.values|, degree) {
      ChildFull(t, h, last, degree, j);
    }
  }

  lemma ChildSplits(t: Tree, kv: KV, degree: nat, h: nat, last: bool, i: nat, c: InsertResult)
    requires ChildTook(t, kv, degree, h, last, i, c) && !c.fits
    ensures 1 <= |c.tree.values| <= |c.tree.children|
    ensures LowerBound(t.values, c.tree.values[|c.tree.values| / 2].key) == i
    ensures var p := SplitInto(c.tree, Node(t.values, t.children[i := c.tree]));
            InsertRefines(t, kv, degree, h, last, InsertResult(p, |p.values| < degree))
  {
    FocusReplace(t.values, t.children, i, c.tree);
    OthersFull(t, degree, h, last, i, t.children[i := c.tree]);
    if i > 0 {
      InsertAbove(InOrder(t.children[i]), kv, t.values[i - 1].key);
      MiddleAbove(c.tree, degree, h - 1, last && i == |t.values|, t.values[i - 1].key);
    }
    SplitAtOwnIndex(Node(t.values, t.children[i := c.tree]), i, degree, h, last);
  }

  /** What the parent does with its child's result. */
  lemma InsertStep(t: Tree, kv: KV, degree: nat, h: nat, last: bool, i: nat, c: InsertResult)
    requires ChildTook(t, kv, degree, h, last, i, c)
    ensures 1 <= |c.tree.values| <= |c.tree.children|
    ensures !c.fits ==> LowerBound(t.values, c.tree.values[|c.tree.values| / 2].key) == i
    ensures var curr := Node(t.values, t.children[i := c.tree]);
            var p := if c.fits then curr else SplitInto(c.tree, curr);
            InsertRefines(t, kv, degree, h, last, InsertResult(p, c.fits || |p.values| < degree))
  {
    if c.fits {
      ChildFits(t, kv, degree, h, last, i, c);
    } else {
      ChildSplits(t, kv, degree, h, last, i, c);
    }
  }

  lemma InsertUnfold(t: Tree, kv: KV, degree: nat, h: nat, last: bool, i: nat, c: InsertResult)
    requires degree >= 3 && Level(t, h, last, degree) && h > 0
    requires i == LowerBound(t.values, kv.key) && Level(t.children[i], h - 1, last && i == |t.values|, degree)
    requires c == InsertIntoLeaf(t.children[i], kv, degree, h - 1, last && i == |t.values|)
    ensures var curr := Node(t.values, t.children[i := c.tree]);
            var p := if c.fits then curr else SplitInto(c.tree, curr);
            InsertIntoLeaf(t, kv, degree, h, last) == InsertResult(p, c.fits || |p.values| < degree)
  {
    LeafLevel(t, h, last, degree);
  }

  ghost predicate Insertable(t: Tree, degree: nat, h: nat, last: bool) {
    && degree >= 3 && Level(t, h, last, degree) && |t.values| <= Most(degree)
    && (h > 0 ==> 1 <= |t.values|) && Sorted(InOrder(t))
  }

  /** A pair, its key fresh or not, belongs in the child at its lower bound. */
  lemma InsertableChild(t: Tree, kv: KV, degree: nat, h: nat, last: bool, i: nat)
    requires Insertable(t, degree, h, last) && h > 0 && i == LowerBound(t.values, kv.key)
    ensures |t.children| == |t.values| + 1 && Insertable(t.children[i], degree, h - 1, last && i == |t.values|)
    ensures i > 0 ==> t.values[i - 1].key < kv.key && Above(InOrder(t.children[i]), t.values[i - 1].key)
    ensures Insert(InOrder(t), kv) ==
            Left(t.values, t.children, i) + Insert(InOrder(t.children[i]), kv) + Right(t.values, t.children, i)
    ensures InOrderOfKeys(Insert(InOrder(t), kv))
  {
    InOrderOfLevel(t, h, last, degree);
    ChildFull(t, h, last, degree, i);
    Focus(t.values, t.children, i);
    LowerBoundSplits(t.values, kv.key);
    if i > 0 { assert t.values[..i][i - 1] == t.values[i - 1]; }
    InsertWithin(Left(t.values, t.children, i), InOrder(t.children[i]), Right(t.values, t.children, i), kv);
    InsertInOrder(InOrder(t), kv);
  }

  /** Inserting a pair below t, whether its key is fresh or not, is insertion into its
      contents; the node overflows by at most one value. */
  lemma {:induction false} InsertIntoLeafRefines(t: Tree, kv: KV, degree: nat, h: nat, last: bool)
    requires Insertable(t, degree, h, last)
    ensures InsertRefines(t, kv, degree, h, last, InsertIntoLeaf(t, kv, degree, h, last))
    decreases h
  {
    if h == 0 {
      LeafLevel(t, h, last, degree);
      LeafInsert(t, kv, degree, last);
    } else {
      var i := LowerBound(t.values, kv.key);
      InsertableChild(t, kv, degree, h, last, i);
      InsertIntoLeafRefines(t.children[i], kv, degree, h - 1, last && i == |t.values|);
      var c := InsertIntoLeaf(t.children[i], kv, degree, h - 1, last && i == |t.values|);
      InsertStep(t, kv, degree, h, last, i, c);
      InsertUnfold(t, kv, degree, h, last, i, c);
    }
  }

  /** One level of an insertion: where the child is, and where its separator
      comes up when it overflows. */
  lemma InsertBelow(t: Tree, kv: KV, degree: nat, h: nat, last: bool, i: nat)
    requires Insertable(t, degree, h, last) && h > 0 && i == LowerBound(t.values, kv.key)
    ensures |t.children| == |t.values| + 1 && Insertable(t.children[i], degree, h - 1, last && i == |t.values|)
    ensures InsertedBelow(t, i, degree, InsertIntoLeaf(t.children[i], kv, degree, h - 1, last && i == |t.values|),
                          InsertIntoLeaf(t, kv, degree, h, last))
  {
    InsertableChild(t, kv, degree, h, last, i);
    InsertIntoLeafRefines(t.children[i], kv, degree, h - 1, last && i == |t.values|);
    var c := InsertIntoLeaf(t.children[i], kv, degree, h - 1, last && i == |t.values|);
    InsertStep(t, kv, degree, h, last, i, c);
    InsertUnfold(t, kv, degree, h, last, i, c);
  }

  /** r is what t becomes once child i became c. */
  ghost predicate InsertedBelow(t: Tree, i: nat, degree: nat, c: InsertResult, r: InsertResult)
    requires t.Node? && i < |t.children| == |t.values| + 1
  {
    && c.tree.Node? && 1 <= |c.tree.values| <= |c.tree.children|
    && (!c.fits ==> LowerBound(t.values, c.tree.values[|c.tree.values| / 2].key) == i)
    && var curr := Node(t.values, t.children[i := c.tree]);
       var p := if c.fits then curr else SplitInto(c.tree, curr);
       r == InsertResult(p, c.fits || |p.values| < degree)
  }

  // ------------------------------------------------------------------ removal

  /** The parent's state once its last child gave up its largest pair. */
  lemma StealStep(t: Tree, degree: nat, h: nat, last: bool, r: StealResult)
    requires degree >= 3 && Level(t, h, last, degree) && h > 0 && 1 <= |t.values|
    requires Sorted(InOrder(t)) && r.tree.Node?
    requires InOrder(r.tree) + [r.max] == InOrder(t.children[|t.values|])
    ensures var cs := t.children[|t.values| := r.tree];
            Sorted(Weave(t.values, cs)) && Weave(t.values, cs) + [r.max] == InOrder(t)
  {
    var n := |t.values|;
    var a := Left(t.values, t.children, n);
    InOrderOfLevel(t, h, last, degree);
    Focus(t.values, t.children, n);
    FocusReplace(t.values, t.children, n, r.tree);
    Snoc(a, InOrder(r.tree), r.max);
  }

  lemma Snoc(a: seq<KV>, x: seq<KV>, v: KV)
    requires Sorted(a + (x + [v]) + [])
    ensures Sorted(a + x + [])
    ensures a + x + [] + [v] == a + (x + [v]) + []
  {
    assert a + (x + [v]) + [] == (a + x) + [v];
    SortedConcat(a + x, [v]);
    assert a + x + [] == a + x;
  }

  lemma ChildSorted(t: Tree, degree: nat, h: nat, last: bool, i: nat)
    requires Level(t, h, last, degree) && h > 0 && Sorted(InOrder(t)) && i <= |t.values|
    ensures Sorted(InOrder(t.children[i]))
  {
    InOrderOfLevel(t, h, last, degree);
    Focus(t.values, t.children, i);
    SortedConcat(Left(t.values, t.children, i) + InOrder(t.children[i]), Right(t.values, t.children, i));
    SortedConcat(Left(t.values, t.children, i), InOrder(t.children[i]));
  }

  /** The largest pair left, the rest stayed in order. */
  ghost predicate StealRefines(t: Tree, r: StealResult) {
    InOrder(r.tree) + [r.max] == InOrder(t)
  }

  lemma StealUnfold(t: Tree, degree: nat, h: nat, last: bool, r: StealResult)
    requires degree >= 3 && Level(t, h, last, degree) && h > 0 && 1 <= |t.values| && Sorted(InOrder(t))
    requires Full(t.children[|t.values|], h - 1, last, degree)
    requires r == StealMax(t.children[|t.values|], degree, h - 1, last)
    requires StealRefines(t.children[|t.values|], r)
    ensures StealRefines(t, StealMax(t, degree, h, last))
  {
    var n := |t.values|;
    LeafLevel(t, h, last, degree);
    StealStep(t, degree, h, last, r);
    ReplaceChild(t, h, last, degree, n, r.tree);
    RebalanceOrder(Node(t.values, t.children[n := r.tree]), n - 1, degree, h, last, n);
  }

  lemma LastRemoved(vs: seq<KV>)
    requires vs != []
    ensures RemoveAt(vs, |vs| - 1) + [vs[|vs| - 1]] == vs
  {
  }

  lemma StealFromLeaf(t: Tree, degree: nat, last: bool)
    requires degree >= 3 && Level(t, 0, last, degree) && 1 <= |t.values|
    ensures StealRefines(t, StealMax(t, degree, 0, last))
  {
    LeafLevel(t, 0, last, degree);
    InOrderOfLevel(t, 0, last, degree);
    InOrderOfLevel(StealMax(t, degree, 0, last).tree, 0, last, degree);
    LastRemoved(t.values);
  }

  /** The largest pair leaves the subtree, the rest stays in order. */
  lemma {:induction false} StealMaxRefines(t: Tree, degree: nat, h: nat, last: bool)
    requires degree >= 3 && Level(t, h, last, degree) && 1 <= |t.values| && Sorted(InOrder(t))
    ensures StealRefines(t, StealMax(t, degree, h, last))
    decreases h
  {
    var n := |t.values|;
    if h == 0 {
      StealFromLeaf(t, degree, last);
    } else {
      ChildFull(t, h, last, degree, n);
      ChildSorted(t, degree, h, last, n);
      StealMaxRefines(t.children[n], degree, h - 1, last);
      StealUnfold(t, degree, h, last, StealMax(t.children[n], degree, h - 1, last));
    }
  }

  ghost predicate RemoveRefines(t: Tree, key: int, r: RemoveResult) {
    && InOrder(r.tree) == Delete(InOrder(t), key)
    && r.found == r.rebalance == Lookup(InOrder(t), key).Some?
  }

  lemma LeafRemove(t: Tree, key: int, degree: nat, last: bool)
    requires degree >= 3 && Level(t, 0, last, degree)
    ensures RemoveRefines(t, key, RemoveFrom(t, key, degree, 0, last))
  {
    LeafLevel(t, 0, last, degree);
    InOrderOfLevel(t, 0, last, degree);
    InOrderOfLevel(RemoveFrom(t, key, degree, 0, last).tree, 0, last, degree);
    AtLowerBound(t.values, key);
  }

  /** The key sits at a separator: the largest pair of the child on its left
      takes its place. */
  lemma SeparatorReplaced(t: Tree, key: int, degree: nat, h: nat, last: bool, r: StealResult)
    requires degree >= 3 && Level(t, h, last, degree) && h > 0 && Sorted(InOrder(t))
    requires var i := LowerBound(t.values, key);
             && i < |t.values| && t.values[i].key == key
             && InOrder(r.tree) + [r.max] == InOrder(t.children[i])
    ensures var i := LowerBound(t.values, key);
            && Weave(t.values[i := r.max], t.children[i := r.tree]) == Delete(InOrder(t), key)
            && Lookup(InOrder(t), key).Some?
  {
    var i := LowerBound(t.values, key);
    AtSeparator(t, key, degree, h, last);
    var vs, cs := t.values[i := r.max], t.children[i := r.tree];
    Focus(vs, cs, i);
    assert vs[..i] == t.values[..i] && cs[..i] == t.children[..i];
    assert vs[i..][1..] == t.values[i..][1..] && cs[i..][1..] == t.children[i..][1..];
    Regroup1(Left(vs, cs, i), InOrder(r.tree), r.max, Right(t.values, t.children, i)[1..]);
  }

  lemma Regroup1(a: seq<KV>, x: seq<KV>, v: KV, b: seq<KV>)
    ensures a + x + ([v] + b) == (a + (x + [v])) + b
  {
  }

  lemma ChildReplaced(t: Tree, key: int, degree: nat, h: nat, last: bool, c: Tree)
    requires degree >= 3 && Level(t, h, last, degree) && h > 0 && Sorted(InOrder(t))
    requires var i := LowerBound(t.values, key);
             && !(i < |t.values| && t.values[i].key == key)
             && InOrder(c) == Delete(InOrder(t.children[i]), key)
    ensures var i := LowerBound(t.values, key);
            && Weave(t.values, t.children[i := c]) == Delete(InOrder(t), key)
            && Lookup(InOrder(t), key) == Lookup(InOrder(t.children[i]), key)
  {
    var v: Value := *;
    Descend(t, KV(key, v), degree, h, last);
    FocusReplace(t.values, t.children, LowerBound(t.values, key), c);
  }

  lemma SeparatorRebalanced(t: Tree, key: int, degree: nat, h: nat, last: bool, i: nat, r: StealResult)
    requires degree >= 3 && Level(t, h, last, degree) && h > 0 && Sorted(InOrder(t))
    requires i == LowerBound(t.values, key) && i < |t.values| && t.values[i].key == key
    requires Level(r.tree, h - 1, false, degree) && |r.tree.values| <= Most(degree)
    requires InOrder(r.tree) + [r.max] == InOrder(t.children[i])
    ensures var curr := Node(t.values[i := r.max], t.children[i := r.tree]);
            && LevelBut(curr, h, last, degree, i)
            && InOrder(Rebalance(curr, i, degree, h, last, i)) == Delete(InOrder(t), key)
  {
    SeparatorReplaced(t, key, degree, h, last, r);
    DeleteIsRemoval(InOrder(t), key);
    ReplaceChild(t, h, last, degree, i, r.tree);
    RebalanceOrder(Node(t.values[i := r.max], t.children[i := r.tree]), i, degree, h, last, i);
  }

  lemma SeparatorUnfold(t: Tree, key: int, degree: nat, h: nat, last: bool, i: nat, r: StealResult)
    requires degree >= 3 && Level(t, h, last, degree) && h > 0
    requires i == LowerBound(t.values, key) && i < |t.values| && t.values[i].key == key
    requires Full(t.children[i], h - 1, false, degree)
    requires r == StealMax(t.children[i], degree, h - 1, false)
    requires LevelBut(Node(t.values[i := r.max], t.children[i := r.tree]), h, last, degree, i)
    ensures RemoveFrom(t, key, degree, h, last) ==
            RemoveResult(Rebalance(Node(t.values[i := r.max], t.children[i := r.tree]), i, degree, h, last, i),
                         true, true)
  {
    LeafLevel(t, h, last, degree);
  }

  lemma RemoveAtSeparator(t: Tree, key: int, degree: nat, h: nat, last: bool)
    requires degree >= 3 && Level(t, h, last, degree) && h > 0 && Sorted(InOrder(t))
    requires var i := LowerBound(t.values, key); i < |t.values| && t.values[i].key == key
    ensures RemoveRefines(t, key, RemoveFrom(t, key, degree, h, last))
  {
    var i := LowerBound(t.values, key);
    ChildFull(t, h, last, degree, i);
    ChildSorted(t, degree, h, last, i);
    StealMaxRefines(t.children[i], degree, h - 1, false);
    var r := StealMax(t.children[i], degree, h - 1, false);
    SeparatorRebalanced(t, key, degree, h, last, i, r);
    SeparatorUnfold(t, key, degree, h, last, i, r);
    AtSeparator(t, key, degree, h, last);
  }

  lemma RemoveBelow(t: Tree, key: int, degree: nat, h: nat, last: bool, i: nat, r: RemoveResult)
    requires degree >= 3 && Level(t, h, last, degree) && h > 0 && 1 <= |t.values| && Sorted(InOrder(t))
    requires i == LowerBound(t.values, key) && !(i < |t.values| && t.values[i].key == key)
    requires Level(t.children[i], h - 1, last && i == |t.values|, degree) && 1 <= |t.children[i].values|
    requires r == RemoveFrom(t.children[i], key, degree, h - 1, last && i == |t.values|)
    requires RemoveRefines(t.children[i], key, r)
    ensures RemoveRefines(t, key, RemoveFrom(t, key, degree, h, last))
  {
    LeafLevel(t, h, last, degree);
    ChildFull(t, h, last, degree, i);
    ChildReplaced(t, key, degree, h, last, r.tree);
    DeleteIsRemoval(InOrder(t), key);
    ReplaceChild(t, h, last, degree, i, r.tree);
    var curr := Node(t.values, t.children[i := r.tree]);
    if r.rebalance {
      RebalanceOrder(curr, i, degree, h, last, i);
    } else {
      InOrderOfLevel(curr, h, last, degree);
    }
  }

  /** Removing below t is deletion from its contents. */
  lemma {:induction false} RemoveFromRefines(t: Tree, key: int, degree: nat, h: nat, last: bool)
    requires degree >= 3 && Level(t, h, last, degree) && (h > 0 ==> 1 <= |t.values|)
    requires Sorted(InOrder(t))
    ensures RemoveRefines(t, key, RemoveFrom(t, key, degree, h, last))
    decreases h
  {
    if h == 0 {
      LeafRemove(t, key, degree, last);
    } else {
      var i := LowerBound(t.values, key);
      if i < |t.values| && t.values[i].key == key {
        RemoveAtSeparator(t, key, degree, h, last);
      } else {
        var clast := last && i == |t.values|;
        ChildFull(t, h, last, degree, i);
        ChildSorted(t, degree, h, last, i);
        RemoveFromRefines(t.children[i], key, degree, h - 1, clast);
        RemoveBelow(t, key, degree, h, last, i, RemoveFrom(t.children[i], key, degree, h - 1, clast));
      }
    }
  }

  // ------------------------------------------------------------------- lookup

  lemma FindDescend(t: Tree, key: int, degree: nat, h: nat, last: bool)
    requires degree >= 3 && Level(t, h, last, degree) && h > 0 && Sorted(InOrder(t))
    requires var i := LowerBound(t.values, key); !(i < |t.values| && t.values[i].key == key)
    ensures var i := LowerBound(t.values, key);
            && Full(t.children[i], h - 1, last && i == |t.values|, degree)
            && Sorted(InOrder(t.children[i]))
            && Lookup(InOrder(t), key) == Lookup(InOrder(t.children[i]), key)
            && Find(t, key, h, last, degree) ==
                 Find(t.children[i], key, h - 1, last && i == |t.values|, degree)
  {
    LeafLevel(t, h, last, degree);
    ChildFull(t, h, last, degree, LowerBound(t.values, key));
    var v: Value := *;
    Descend(t, KV(key, v), degree, h, last);
  }

  /** Searching below t is lookup in its contents. */
  lemma {:induction false} FindRefines(t: Tree, key: int, degree: nat, h: nat, last: bool)
    requires degree >= 3 && Level(t, h, last, degree) && Sorted(InOrder(t))
    ensures Find(t, key, h, last, degree) == Lookup(InOrder(t), key)
    decreases h
  {
    var i := LowerBound(t.values, key);
    if h == 0 {
      LeafLevel(t, h, last, degree);
      InOrderOfLevel(t, h, last, degree);
      AtLowerBound(t.values, key);
    } else if i < |t.values| && t.values[i].key == key {
      AtSeparator(t, key, degree, h, last);
    } else {
      FindDescend(t, key, degree, h, last);
      FindRefines(t.children[i], key, degree, h - 1, last && i == |t.values|);
    }
  }
}
