/** Theorems about whole B-trees: every run of insertions of absent keys and of removals
    keeps the shape and refines a finite map, with the one exception of removal stated
    exactly; and what one insertion of a present key does. */
module BTreeTheorems {
  import opened Options
  import opened SortedSeq
  import opened BTreeModel
  import opened BTreeOrder
  import opened BTreeRefinement

  ghost function MapOf(root: Tree): map<int, Value> {
    ToMap(InOrder(root))
  }

  /** Leaves at one depth h, occupancy and slot counts as in Level. A leaf root with a
      single slot holds exactly one value. */
  ghost predicate Shaped(root: Tree, h: nat, degree: nat) {
    && degree >= 3
    && if root.Null? then h == 0 else
         && Level(root, h, true, degree)
         && |root.values| <= Most(degree)
         && (h > 0 ==> 1 <= |root.values|)
         && (h == 0 ==> 1 <= |root.children| && (|root.children| == 1 ==> |root.values| == 1))
  }

  /** What every tree satisfies that insertions of absent keys and removals reach: it is
      shaped, and its keys are distinct and in search order. */
  ghost predicate TreeOk(root: Tree, h: nat, degree: nat) {
    Shaped(root, h, degree) && Sorted(InOrder(root))
  }

  /** The root's height after an insertion: one more when the root splits. */
  ghost function HeightAfterInsert(root: Tree, kv: KV, degree: nat, h: nat): nat
    requires TreeOk(root, h, degree)
  {
    if root.Null? || InsertIntoLeaf(root, kv, degree, h, true).fits then h else h + 1
  }

  /** And after a removal: one less when the root is left with a single child. */
  ghost function HeightAfterRemove(root: Tree, key: int, degree: nat, h: nat): nat
    requires TreeOk(root, h, degree)
  {
    if root.Null? || |RemoveFrom(root, key, degree, h, true).tree.children| != 1 || h == 0 then h else h - 1
  }

  /** Inserting any pair puts it before the first pair whose key is not smaller, and keeps
      the shape. */
  lemma InsertAddsPair(root: Tree, kv: KV, degree: nat, h: nat)
    requires TreeOk(root, h, degree)
    ensures Shaped(InsertRoot(root, kv, degree, h), HeightAfterInsert(root, kv, degree, h), degree)
    ensures InOrder(InsertRoot(root, kv, degree, h)) == Insert(InOrder(root), kv)
  {
    if root.Null? {
      var t := InsertInto(Node([], []), kv);
      assert Level(Node([], []), 0, true, degree);
      assert InsertRoot(root, kv, degree, h) == t == Node([kv], [Null]);
    } else {
      InsertIntoLeafRefines(root, kv, degree, h, true);
      var r := InsertIntoLeaf(root, kv, degree, h, true);
      if r.fits {
        if h == 0 { LeafLevel(root, h, true, degree); }
      } else {
        RootSplit(r.tree, degree, h);
      }
    }
  }

  /** The keys are distinct again, and the tree holds what the map holds after the same
      update, if and only if the key was absent. */
  lemma InsertIsMapUpdate(root: Tree, kv: KV, degree: nat, h: nat)
    requires TreeOk(root, h, degree)
    ensures TreeOk(InsertRoot(root, kv, degree, h), HeightAfterInsert(root, kv, degree, h), degree)
            <==> kv.key !in MapOf(root)
    ensures kv.key !in MapOf(root) ==>
              MapOf(InsertRoot(root, kv, degree, h)) == MapOf(root)[kv.key := kv.value]
  {
    InsertAddsPair(root, kv, degree, h);
    InsertInOrder(InOrder(root), kv);
    if kv.key !in MapOf(root) { InsertIsUpdate(InOrder(root), kv); }
  }

  /** The same about the resulting tree t, and its height. */
  lemma InsertedTree(root: Tree, kv: KV, degree: nat, h: nat, t: Tree) returns (h': nat)
    requires TreeOk(root, h, degree) && t == InsertRoot(root, kv, degree, h)
    ensures Shaped(t, h', degree) && InOrder(t) == Insert(InOrder(root), kv)
    ensures Sorted(InOrder(t)) <==> kv.key !in MapOf(root)
    ensures kv.key !in MapOf(root) ==> MapOf(t) == MapOf(root)[kv.key := kv.value]
  {
    h' := HeightAfterInsert(root, kv, degree, h);
    InsertAddsPair(root, kv, degree, h);
    InsertIsMapUpdate(root, kv, degree, h);
  }

  /** A split root becomes a one-value node over its halves. */
  lemma RootSplit(t: Tree, degree: nat, h: nat)
    requires degree >= 3 && Level(t, h, true, degree) && 3 <= |t.values| <= Most(degree) + 1
    ensures |t.values| <= |t.children|
    ensures var p := SplitInto(t, Node([], []));
            && Level(p, h + 1, true, degree) && |p.values| == 1
            && InOrder(p) == InOrder(t)
  {
    SplitLevel(t, h, true, degree);
    SplitOrder(t, h, true, degree);
    OneValue(SplitLeft(t), t.values[|t.values| / 2], SplitRight(t), degree, h);
    RootHalves(t);
  }

  /** A leaf root keeps its slots; a root left with one child hands over to it. */
  lemma RootAfterRemove(root: Tree, key: int, degree: nat, h: nat)
    requires TreeOk(root, h, degree) && root.Node?
    requires Sorted(InOrder(RemoveFrom(root, key, degree, h, true).tree))
    ensures var t := RemoveFrom(root, key, degree, h, true).tree;
            && |t.values| <= |root.values|
            && (h == 0 ==> |t.children| == |root.children|)
            && (h > 0 && |t.children| == 1 ==>
                  InOrder(t.children[0]) == InOrder(t) && TreeOk(t.children[0], h - 1, degree))
            && (|t.children| != 1 ==> TreeOk(t, h, degree))
  {
    var t := RemoveFrom(root, key, degree, h, true).tree;
    if h == 0 {
      LeafLevel(root, h, true, degree);
    } else if |t.children| == 1 {
      OnlyChild(t, degree, h);
    }
  }

  lemma OnlyChild(t: Tree, degree: nat, h: nat)
    requires degree >= 3 && Level(t, h, true, degree) && h > 0 && |t.children| == 1
    requires Sorted(InOrder(t))
    ensures InOrder(t.children[0]) == InOrder(t) && TreeOk(t.children[0], h - 1, degree)
  {
    InOrderOfLevel(t, h, true, degree);
    ChildFull(t, h, true, degree, 0);
  }

  /** Removal keeps every invariant, whatever the key. */
  lemma RemoveKeepsTree(root: Tree, key: int, degree: nat, h: nat)
    requires TreeOk(root, h, degree)
    ensures TreeOk(RemoveRoot(root, key, degree, h), HeightAfterRemove(root, key, degree, h), degree)
    ensures root.Null? || key in MapOf(root) || |root.children| != 1 ==>
              InOrder(RemoveRoot(root, key, degree, h)) == Delete(InOrder(root), key)
    ensures !(root.Null? || key in MapOf(root) || |root.children| != 1) ==>
              RemoveRoot(root, key, degree, h) == Null
  {
    DeleteIsRemoval(InOrder(root), key);
    if root.Node? {
      RemoveFromRefines(root, key, degree, h, true);
      RootAfterRemove(root, key, degree, h);
      var t := RemoveFrom(root, key, degree, h, true).tree;
      if h == 0 && |t.children| == 1 { OneSlotRoot(root, key, degree); }
    }
  }

  /** A root leaf with one slot holds one pair, so deleting its key empties it. */
  lemma OneSlotRoot(root: Tree, key: int, degree: nat)
    requires TreeOk(root, 0, degree) && root.Node? && |root.children| == 1
    ensures InOrder(root) == [root.values[0]]
    ensures key in MapOf(root) ==> Delete(InOrder(root), key) == []
    ensures root.children[0] == Null
  {
    InOrderOfLevel(root, 0, true, degree);
    assert root.values == [root.values[0]] && root.values[1..] == [];
    MapDomain(root.values, key);
  }

  /** Removing a key is map removal if and only if the key is present or the root
      does not have exactly one child slot: a root leaf with one slot is dropped,
      with its only pair, even when the key is absent. */
  lemma RemoveIsMapRemoval(root: Tree, key: int, degree: nat, h: nat)
    requires TreeOk(root, h, degree)
    ensures MapOf(RemoveRoot(root, key, degree, h)) == MapOf(root) - {key}
            <==> root.Null? || key in MapOf(root) || |root.children| != 1
  {
    RemoveKeepsTree(root, key, degree, h);
    DeleteIsRemoval(InOrder(root), key);
    if root.Node? && |root.children| == 1 && key !in MapOf(root) {
      assert h == 0;
      OneSlotRoot(root, key, degree);
      assert root.values[0].key in MapOf(root);
    }
  }

  /** The exception happens: remove of an absent key from a one-pair tree. */
  lemma AbsentRemoveDropsOnlyPair(v: Value)
    ensures var t := InsertRoot(Null, KV(1, v), 3, 0);
            && TreeOk(t, 0, 3) && MapOf(t) == map[1 := v]
            && 2 !in MapOf(t) && MapOf(RemoveRoot(t, 2, 3, 0)) == map[]
  {
    var t := InsertRoot(Null, KV(1, v), 3, 0);
    InsertIsMapUpdate(Null, KV(1, v), 3, 0);
    assert t == Node([KV(1, v)], [Null]);
    RemoveKeepsTree(t, 2, 3, 0);
  }

  /** Lookup agrees with the map. */
  lemma FindIsMapSelect(root: Tree, key: int, degree: nat, h: nat)
    requires TreeOk(root, h, degree) && root.Node?
    ensures Find(root, key, h, true, degree) ==
            if key in MapOf(root) then Some(MapOf(root)[key]) else None
  {
    FindRefines(root, key, degree, h, true);
    LookupIsSelect(InOrder(root), key);
  }

  // --------------------------------------------------------------------- runs

  datatype Op = Put(kv: KV) | Erase(key: int)

  datatype State = State(root: Tree, height: nat)

  ghost function Step(s: State, op: Op, degree: nat): State
    requires TreeOk(s.root, s.height, degree)
  {
    match op
    case Put(kv) =>
      State(InsertRoot(s.root, kv, degree, s.height), HeightAfterInsert(s.root, kv, degree, s.height))
    case Erase(key) =>
      State(RemoveRoot(s.root, key, degree, s.height), HeightAfterRemove(s.root, key, degree, s.height))
  }

  /** The exception of remove: an absent key, and a root with a single child slot. */
  ghost predicate Drops(s: State, op: Op) {
    op.Erase? && s.root.Node? && op.key !in MapOf(s.root) && |s.root.children| == 1
  }

  /** The map's step; in the exception the map, then of one pair, is emptied. */
  ghost function MapStep(m: map<int, Value>, op: Op, drops: bool): map<int, Value> {
    match op
    case Put(kv) => m[kv.key := kv.value]
    case Erase(key) => if drops then map[] else m - {key}
  }

  /** Keys are put when absent; any key may be erased. */
  ghost predicate Allowed(s: State, op: Op) {
    op.Put? ==> op.kv.key !in MapOf(s.root)
  }

  lemma StepRefines(s: State, op: Op, degree: nat)
    requires TreeOk(s.root, s.height, degree) && Allowed(s, op)
    ensures TreeOk(Step(s, op, degree).root, Step(s, op, degree).height, degree)
    ensures MapOf(Step(s, op, degree).root) == MapStep(MapOf(s.root), op, Drops(s, op))
    ensures Drops(s, op) ==> |MapOf(s.root)| == 1
  {
    match op
    case Put(kv) => InsertIsMapUpdate(s.root, kv, degree, s.height);
    case Erase(key) =>
      RemoveKeepsTree(s.root, key, degree, s.height);
      RemoveIsMapRemoval(s.root, key, degree, s.height);
      if Drops(s, op) {
        OneSlotRoot(s.root, key, degree);
        MapSize(InOrder(s.root));
      }
  }

  /** s0 to s by the operations in order, each allowed where it is applied; drops records
      where the exception happens. */
  ghost predicate Run(s0: State, ops: seq<Op>, drops: seq<bool>, s: State, degree: nat)
    requires TreeOk(s0.root, s0.height, degree) && |drops| == |ops|
    decreases ops
  {
    if ops == [] then s == s0
    else
      && Allowed(s0, ops[0]) && drops[0] == Drops(s0, ops[0])
      && (StepRefines(s0, ops[0], degree); Run(Step(s0, ops[0], degree), ops[1..], drops[1..], s, degree))
  }

  ghost function MapRun(m: map<int, Value>, ops: seq<Op>, drops: seq<bool>): map<int, Value>
    requires |drops| == |ops|
    decreases ops
  {
    if ops == [] then m else MapRun(MapStep(m, ops[0], drops[0]), ops[1..], drops[1..])
  }

  /** From the empty tree, or any reachable one, any run of insertions of absent keys and
      removals of any keys ends in a well-shaped tree holding exactly what the same
      operations leave in a map. */
  lemma {:induction false} RunRefinesMap(s0: State, ops: seq<Op>, drops: seq<bool>, s: State, degree: nat)
    requires TreeOk(s0.root, s0.height, degree) && |drops| == |ops| && Run(s0, ops, drops, s, degree)
    ensures TreeOk(s.root, s.height, degree)
    ensures MapOf(s.root) == MapRun(MapOf(s0.root), ops, drops)
    decreases ops
  {
    if ops != [] {
      StepRefines(s0, ops[0], degree);
      RunRefinesMap(Step(s0, ops[0], degree), ops[1..], drops[1..], s, degree);
    }
  }

  // ------------------------------------------------------------------- height

  function Pow2(n: nat): nat { if n == 0 then 1 else 2 * Pow2(n - 1) }

  lemma {:induction false} WeaveSize(vs: seq<KV>, cs: seq<Tree>, each: nat)
    requires |cs| == |vs| + 1
    requires forall i :: 0 <= i < |cs| ==> each <= |InOrder(cs[i])| + 1
    ensures |cs| * each <= |Weave(vs, cs)| + 1
  {
    if vs != [] {
      WeaveSize(vs[1..], cs[1..], each);
      assert |cs| * each == (|cs| - 1) * each + each;
    }
  }

  lemma {:induction false} SizeOfLevel(t: Tree, degree: nat, h: nat, last: bool)
    requires Level(t, h, last, degree) && 1 <= |t.values|
    ensures Pow2(h + 1) <= |InOrder(t)| + 1
    decreases h
  {
    InOrderOfLevel(t, h, last, degree);
    if h > 0 {
      forall i | 0 <= i < |t.children| ensures Pow2(h) <= |InOrder(t.children[i])| + 1 {
        ChildFull(t, h, last, degree, i);
        SizeOfLevel(t.children[i], degree, h - 1, last && i == |t.values|);
      }
      WeaveSize(t.values, t.children, Pow2(h));
      assert 2 * Pow2(h) <= |t.children| * Pow2(h);
    }
  }

  lemma {:induction false} MapSize(s: seq<KV>)
    requires Sorted(s)
    ensures |ToMap(s)| == |s|
  {
    if s != [] {
      MapDomain(s[1..], s[0].key);
      MapSize(s[1..]);
      assert s[0].key !in ToMap(s[1..]);
    }
  }

  lemma {:induction false} Pow2Monotone(a: nat, b: nat)
    requires a <= b
    ensures Pow2(a) <= Pow2(b)
  {
    if a < b { Pow2Monotone(a, b - 1); }
  }

  /** A tree with n pairs has height h with 2^(h + 1) <= n + 1. */
  lemma HeightIsLogarithmic(root: Tree, degree: nat, h: nat)
    requires TreeOk(root, h, degree) && MapOf(root) != map[]
    ensures root.Node? && Pow2(h + 1) <= |MapOf(root)| + 1
  {
    assert root.Node? && 1 <= |root.values| by {
      if root.Node? && h == 0 { InOrderOfLevel(root, h, true, degree); }
    }
    SizeOfLevel(root, degree, h, true);
    MapSize(InOrder(root));
  }
}
