/** In-order contents of B-tree nodes: how splits, rotations and merges move
    values between nodes without moving them in key order. */
module BTreeOrder {
  import opened SortedSeq
  import opened BTreeModel

  /** Children each followed by a separator: a Weave without its last child. */
  ghost function Pairs(vs: seq<KV>, cs: seq<Tree>): seq<KV>
    requires |cs| == |vs|
  {
    if vs == [] then [] else InOrder(cs[0]) + [vs[0]] + Pairs(vs[1..], cs[1..])
  }

  /** A Weave without its first child. */
  ghost function Tail(vs: seq<KV>, cs: seq<Tree>): seq<KV>
    requires |cs| == |vs| + 1
  {
    if vs == [] then [] else [vs[0]] + Weave(vs[1..], cs[1..])
  }

  lemma Assoc(a: seq<KV>, b: seq<KV>, c: seq<KV>)
    ensures (a + b) + c == a + (b + c)
  {
  }

  lemma {:induction false} PairsThenWeave(a: seq<KV>, c: seq<Tree>, b: seq<KV>, d: seq<Tree>)
    requires |c| == |a| && |d| == |b| + 1
    ensures Weave(a + b, c + d) == Pairs(a, c) + Weave(b, d)
  {
    if a == [] {
      assert a + b == b && c + d == d;
    } else {
      PairsThenWeave(a[1..], c[1..], b, d);
      assert (a + b)[1..] == a[1..] + b && (c + d)[1..] == c[1..] + d;
      assert (a + b)[0] == a[0] && (c + d)[0] == c[0];
      Assoc(InOrder(c[0]) + [a[0]], Pairs(a[1..], c[1..]), Weave(b, d));
    }
  }

  lemma {:induction false} PairsSnoc(vs: seq<KV>, cs: seq<Tree>, v: KV)
    requires |cs| == |vs| + 1
    ensures Pairs(vs + [v], cs) == Weave(vs, cs) + [v]
  {
    if vs != [] {
      PairsSnoc(vs[1..], cs[1..], v);
      assert (vs + [v])[1..] == vs[1..] + [v];
    }
  }

  lemma InOrderOfLevel(t: Tree, h: nat, last: bool, degree: nat)
    requires Level(t, h, last, degree)
    ensures InOrder(t) == if h == 0 then t.values else Weave(t.values, t.children)
  {
    LeafLevel(t, h, last, degree);
  }

  // ----------------------------------------------------------- one-hole views

  /** Everything before, and everything after, child i. */
  ghost function Left(vs: seq<KV>, cs: seq<Tree>, i: nat): seq<KV>
    requires |cs| == |vs| + 1 && i <= |vs|
  {
    Pairs(vs[..i], cs[..i])
  }

  ghost function Right(vs: seq<KV>, cs: seq<Tree>, i: nat): seq<KV>
    requires |cs| == |vs| + 1 && i <= |vs|
  {
    Tail(vs[i..], cs[i..])
  }

  lemma LeftEnd(vs: seq<KV>, cs: seq<Tree>, i: nat)
    requires |cs| == |vs| + 1 && 0 < i <= |vs|
    ensures Left(vs, cs, i) != [] && Left(vs, cs, i)[|Left(vs, cs, i)| - 1] == vs[i - 1]
  {
    PairsSnoc(vs[..i - 1], cs[..i], vs[i - 1]);
    assert vs[..i - 1] + [vs[i - 1]] == vs[..i];
  }

  lemma Focus(vs: seq<KV>, cs: seq<Tree>, i: nat)
    requires |cs| == |vs| + 1 && i <= |vs|
    ensures Weave(vs, cs) == Left(vs, cs, i) + InOrder(cs[i]) + Right(vs, cs, i)
    ensures if i == 0 then Left(vs, cs, i) == []
            else Left(vs, cs, i) != [] && Left(vs, cs, i)[|Left(vs, cs, i)| - 1] == vs[i - 1]
    ensures if i == |vs| then Right(vs, cs, i) == []
            else Right(vs, cs, i) != [] && Right(vs, cs, i)[0] == vs[i]
  {
    PairsThenWeave(vs[..i], cs[..i], vs[i..], cs[i..]);
    assert vs[..i] + vs[i..] == vs && cs[..i] + cs[i..] == cs;
    WeaveHead(vs[i..], cs[i..]);
    Assoc(Left(vs, cs, i), InOrder(cs[i]), Right(vs, cs, i));
    if i > 0 { LeftEnd(vs, cs, i); }
  }

  lemma WeaveHead(vs: seq<KV>, cs: seq<Tree>)
    requires |cs| == |vs| + 1
    ensures Weave(vs, cs) == InOrder(cs[0]) + Tail(vs, cs)
  {
    if vs != [] { Assoc(InOrder(cs[0]), [vs[0]], Weave(vs[1..], cs[1..])); }
  }

  lemma FocusReplace(vs: seq<KV>, cs: seq<Tree>, i: nat, c: Tree)
    requires |cs| == |vs| + 1 && i <= |vs|
    ensures Weave(vs, cs[i := c]) == Left(vs, cs, i) + InOrder(c) + Right(vs, cs, i)
  {
    var ds := cs[i := c];
    Focus(vs, ds, i);
    assert ds[..i] == cs[..i];
    if i < |vs| {
      assert vs[i..][1..] == vs[i + 1..] && cs[i..][1..] == cs[i + 1..] && ds[i..][1..] == cs[i + 1..];
    }
  }

  /** Two neighbouring children and their separator, in context. */
  lemma FocusPair(vs: seq<KV>, cs: seq<Tree>, k: nat)
    requires |cs| == |vs| + 1 && k < |vs|
    ensures Weave(vs, cs) ==
            Left(vs, cs, k) + (InOrder(cs[k]) + [vs[k]] + InOrder(cs[k + 1])) + Right(vs, cs, k + 1)
  {
    Focus(vs, cs, k);
    Regroup(Left(vs, cs, k), InOrder(cs[k]), vs[k], InOrder(cs[k + 1]), Right(vs, cs, k + 1));
    RightUnfold(vs, cs, k);
  }

  lemma RightUnfold(vs: seq<KV>, cs: seq<Tree>, k: nat)
    requires |cs| == |vs| + 1 && k < |vs|
    ensures Right(vs, cs, k) == [vs[k]] + (InOrder(cs[k + 1]) + Right(vs, cs, k + 1))
  {
    var ws, ds := vs[k + 1..], cs[k + 1..];
    assert vs[k..][1..] == ws && cs[k..][1..] == ds;
    if ws != [] { Assoc(InOrder(ds[0]), [ws[0]], Weave(ws[1..], ds[1..])); }
  }

  lemma Regroup(a: seq<KV>, x: seq<KV>, v: KV, y: seq<KV>, b: seq<KV>)
    ensures a + x + ([v] + (y + b)) == a + (x + [v] + y) + b
  {
  }

  lemma PairReplaced(p: Tree, k: nat, x: Trio)
    requires p.Node? && k < |p.values| && |p.children| == |p.values| + 1
    requires InOrder(x.left) + [x.mid] + InOrder(x.right) ==
             InOrder(p.children[k]) + [p.values[k]] + InOrder(p.children[k + 1])
    ensures var q := WithPair(p, k, x); Weave(q.values, q.children) == Weave(p.values, p.children)
  {
    var q := WithPair(p, k, x);
    FocusPair(p.values, p.children, k);
    FocusPair(q.values, q.children, k);
    assert q.values[..k] == p.values[..k] && q.children[..k] == p.children[..k];
    assert q.values[k + 1..] == p.values[k + 1..];
    if k + 1 < |p.values| {
      assert q.children[k + 1..][1..] == p.children[k + 1..][1..];
    }
  }

  lemma PairMerged(p: Tree, k: nat, m: Tree)
    requires p.Node? && k < |p.values| && |p.children| == |p.values| + 1
    requires InOrder(m) == InOrder(p.children[k]) + [p.values[k]] + InOrder(p.children[k + 1])
    ensures var q := WithMerged(p, k, m);
            |q.children| == |q.values| + 1 && Weave(q.values, q.children) == Weave(p.values, p.children)
  {
    var q := WithMerged(p, k, m);
    FocusPair(p.values, p.children, k);
    Focus(q.values, q.children, k);
    assert q.values[..k] == p.values[..k] && q.children[..k] == p.children[..k];
    assert q.values[k..] == p.values[k + 1..];
    assert q.children[k] == m;
    if k + 1 < |p.values| {
      assert q.children[k..][1..] == p.children[k + 1..][1..];
    }
  }

  // --------------------------------------------- each restructuring keeps order

  lemma Reassociate(a: seq<KV>, x: seq<KV>, v: KV, y: seq<KV>)
    ensures (a + x) + [v] + y == a + (x + [v] + y)
  {
  }

  lemma WeaveRotatedLeft(lv: seq<KV>, lc: seq<Tree>, sep: KV, rv: seq<KV>, rc: seq<Tree>)
    requires |lc| == |lv| + 1 && |rc| == |rv| + 1 && rv != []
    ensures Weave(lv + [sep], lc + [rc[0]]) + [rv[0]] + Weave(rv[1..], rc[1..]) ==
            Weave(lv, lc) + [sep] + Weave(rv, rc)
  {
    PairsSnoc(lv, lc, sep);
    PairsThenWeave(lv + [sep], lc, [], [rc[0]]);
    assert lv + [sep] + [] == lv + [sep];
    Reassociate(Weave(lv, lc) + [sep], InOrder(rc[0]), rv[0], Weave(rv[1..], rc[1..]));
  }

  lemma LeafRotatedLeft(lv: seq<KV>, sep: KV, rv: seq<KV>)
    requires rv != []
    ensures (lv + [sep]) + [rv[0]] + rv[1..] == lv + [sep] + rv
  {
    assert rv == [rv[0]] + rv[1..];
  }

  lemma RotatedLeftWeave(l: Tree, sep: KV, r: Tree)
    requires l.Node? && r.Node? && 1 <= |r.values|
    requires |l.children| == |l.values| + 1 && |r.children| == |r.values| + 1
    ensures var x := RotatedLeft(l, sep, r);
            Weave(x.left.values, x.left.children) + [x.mid] + Weave(x.right.values, x.right.children) ==
            Weave(l.values, l.children) + [sep] + Weave(r.values, r.children)
  {
    var x := RotatedLeft(l, sep, r);
    assert x.right.values == r.values[1..] && x.right.children == r.children[1..];
    WeaveRotatedLeft(l.values, l.children, sep, r.values, r.children);
  }

  lemma RotatedLeftOrder(l: Tree, sep: KV, r: Tree, degree: nat, h: nat, last: bool)
    requires Level(l, h, false, degree) && Level(r, h, last, degree) && 2 <= |r.values|
    ensures var x := RotatedLeft(l, sep, r);
            InOrder(x.left) + [x.mid] + InOrder(x.right) == InOrder(l) + [sep] + InOrder(r)
  {
    var x := RotatedLeft(l, sep, r);
    RotatedLeftLevel(l, sep, r, degree, h, last);
    InOrderOfLevel(l, h, false, degree);
    InOrderOfLevel(r, h, last, degree);
    InOrderOfLevel(x.left, h, false, degree);
    InOrderOfLevel(x.right, h, last, degree);
    if h == 0 {
      LeafRotatedLeft(l.values, sep, r.values);
      assert x.right.values == r.values[1..];
    } else {
      RotatedLeftWeave(l, sep, r);
    }
  }

  lemma WeaveRotatedRight(lv: seq<KV>, lc: seq<Tree>, v: KV, c: Tree, sep: KV, rv: seq<KV>, rc: seq<Tree>)
    requires |lc| == |lv| + 1 && |rc| == |rv| + 1
    ensures Weave(lv, lc) + [v] + Weave([sep] + rv, [c] + rc) ==
            Weave(lv + [v], lc + [c]) + [sep] + Weave(rv, rc)
  {
    PairsSnoc(lv, lc, v);
    PairsThenWeave(lv + [v], lc, [], [c]);
    assert lv + [v] + [] == lv + [v];
    assert ([sep] + rv)[1..] == rv && ([c] + rc)[1..] == rc;
    Reassociate(Weave(lv, lc) + [v], InOrder(c), sep, Weave(rv, rc));
  }

  lemma RotatedRightWeave(l: Tree, sep: KV, r: Tree)
    requires l.Node? && r.Node? && 1 <= |l.values|
    requires |l.children| == |l.values| + 1 && |r.children| == |r.values| + 1
    ensures var x := RotatedRight(l, sep, r);
            Weave(x.left.values, x.left.children) + [x.mid] + Weave(x.right.values, x.right.children) ==
            Weave(l.values, l.children) + [sep] + Weave(r.values, r.children)
  {
    var n, x := |l.values|, RotatedRight(l, sep, r);
    WeaveRotatedRight(x.left.values, x.left.children, x.mid, l.children[n], sep, r.values, r.children);
    assert l.values == x.left.values + [x.mid] && l.children == x.left.children + [l.children[n]];
  }

  lemma RotatedRightOrder(l: Tree, sep: KV, r: Tree, degree: nat, h: nat, last: bool)
    requires Level(l, h, false, degree) && Level(r, h, last, degree) && 2 <= |l.values|
    ensures var x := RotatedRight(l, sep, r);
            InOrder(x.left) + [x.mid] + InOrder(x.right) == InOrder(l) + [sep] + InOrder(r)
  {
    var x := RotatedRight(l, sep, r);
    RotatedRightLevel(l, sep, r, degree, h, last);
    InOrderOfLevel(l, h, false, degree);
    InOrderOfLevel(r, h, last, degree);
    InOrderOfLevel(x.left, h, false, degree);
    InOrderOfLevel(x.right, h, last, degree);
    if h == 0 {
      assert x.left.values + [x.mid] == l.values;
      Reassociate([], l.values, sep, r.values);
    } else {
      RotatedRightWeave(l, sep, r);
    }
  }

  /** A separator above all of l's contents is emplaced after all its values, and
      the null slot made for it is the one removed. */
  lemma MergedParts(l: Tree, sep: KV, r: Tree, degree: nat, h: nat)
    requires Level(l, h, false, degree) && r.Node?
    requires Sorted(InOrder(l) + [sep])
    ensures Merged(l, sep, r) == Node(l.values + [sep] + r.values, l.children + r.children)
  {
    var n := |l.values|;
    SortedConcat(InOrder(l), [sep]);
    ValuesWithin(l, h, false, degree);
    if l.values != [] { SortedEnds(InOrder(l), sep.key); }
    LowerBoundIs(l.values, sep.key, n);
    assert EmplaceAt(l.values, n, sep) == l.values + [sep];
    assert RemoveAt(EmplaceAt(l.children, n, Null), n) == l.children;
  }

  lemma MergedOrder(l: Tree, sep: KV, r: Tree, degree: nat, h: nat, last: bool)
    requires Level(l, h, false, degree) && Level(r, h, last, degree)
    requires Sorted(InOrder(l) + [sep])
    ensures InOrder(Merged(l, sep, r)) == InOrder(l) + [sep] + InOrder(r)
  {
    MergedLevel(l, sep, r, degree, h, last);
    MergedParts(l, sep, r, degree, h);
    InOrderOfLevel(l, h, false, degree);
    InOrderOfLevel(r, h, last, degree);
    InOrderOfLevel(Merged(l, sep, r), h, last, degree);
    if h > 0 {
      PairsSnoc(l.values, l.children, sep);
      PairsThenWeave(l.values + [sep], l.children, r.values, r.children);
    }
  }

  lemma SplitLevel(t: Tree, h: nat, last: bool, degree: nat)
    requires Level(t, h, last, degree) && 1 <= |t.values| <= |t.children|
    ensures Level(SplitLeft(t), h, false, degree)
    ensures Level(SplitRight(t), h, last, degree)
  {
  }

  lemma {:induction false} WeaveJoin(a: seq<KV>, c: seq<Tree>, v: KV, b: seq<KV>, d: seq<Tree>)
    requires |c| == |a| + 1 && |d| == |b| + 1
    ensures Weave(a + [v] + b, c + d) == Weave(a, c) + [v] + Weave(b, d)
  {
    PairsSnoc(a, c, v);
    PairsThenWeave(a + [v], c, b, d);
  }

  lemma SplitParts(t: Tree)
    requires t.Node? && 0 < |t.values| <= |t.children|
    ensures t.values == SplitLeft(t).values + [t.values[|t.values| / 2]] + SplitRight(t).values
    ensures t.children == SplitLeft(t).children + SplitRight(t).children
  {
  }

  lemma SplitOrder(t: Tree, h: nat, last: bool, degree: nat)
    requires Level(t, h, last, degree) && 1 <= |t.values| <= |t.children|
    ensures InOrder(t) == InOrder(SplitLeft(t)) + [t.values[|t.values| / 2]] + InOrder(SplitRight(t))
  {
    SplitLevel(t, h, last, degree);
    SplitParts(t);
    InOrderOfLevel(t, h, last, degree);
    InOrderOfLevel(SplitLeft(t), h, false, degree);
    InOrderOfLevel(SplitRight(t), h, last, degree);
    if h > 0 {
      WeaveJoin(SplitLeft(t).values, SplitLeft(t).children, t.values[|t.values| / 2],
                SplitRight(t).values, SplitRight(t).children);
    }
  }

  // ---------------------------------------------------------- order of values

  /** A node's own values are bounded and ordered by its contents. */
  lemma {:induction false} WeaveValues(vs: seq<KV>, cs: seq<Tree>)
    requires |cs| == |vs| + 1
    ensures forall k :: Above(Weave(vs, cs), k) ==> Above(vs, k)
    ensures forall k :: Below(Weave(vs, cs), k) ==> Below(vs, k)
    ensures Sorted(Weave(vs, cs)) ==> Sorted(vs)
  {
    if vs != [] {
      var x, w := InOrder(cs[0]), Weave(vs[1..], cs[1..]);
      var s := Weave(vs, cs);
      WeaveValues(vs[1..], cs[1..]);
      assert s[|x|] == vs[0];
      assert forall i :: 0 <= i < |w| ==> s[|x| + 1 + i] == w[i];
      assert forall i :: 1 <= i < |vs| ==> vs[i] == vs[1..][i - 1];
      forall k | Above(s, k) ensures Above(vs, k) {
        assert Above(w, k);
        assert Above(vs[1..], k);
      }
      forall k | Below(s, k) ensures Below(vs, k) {
        assert Below(w, k);
        assert Below(vs[1..], k);
      }
      assert s == (x + [vs[0]]) + w;
      SortedConcat(x + [vs[0]], w);
    }
  }

  lemma {:induction false} WeaveInOrder(vs: seq<KV>, cs: seq<Tree>)
    requires |cs| == |vs| + 1 && InOrderOfKeys(Weave(vs, cs))
    ensures InOrderOfKeys(vs)
  {
    if vs != [] {
      var x, w := InOrder(cs[0]) + [vs[0]], Weave(vs[1..], cs[1..]);
      InOrderParts(x, w);
      WeaveInOrder(vs[1..], cs[1..]);
      WeaveValues(vs[1..], cs[1..]);
      assert Above(w, vs[0].key - 1);
      assert vs == [vs[0]] + vs[1..];
      InOrderJoin([vs[0]], vs[1..]);
    }
  }

  lemma InOrderParts(x: seq<KV>, w: seq<KV>)
    requires x != [] && InOrderOfKeys(x + w)
    ensures InOrderOfKeys(w) && Above(w, x[|x| - 1].key - 1)
  {
    var s := x + w;
    assert s[|x| - 1] == x[|x| - 1] && forall i :: 0 <= i < |w| ==> s[|x| + i] == w[i];
  }

  lemma ValuesWithin(t: Tree, h: nat, last: bool, degree: nat)
    requires Level(t, h, last, degree) && Sorted(InOrder(t))
    ensures Sorted(t.values)
    ensures forall k :: Below(InOrder(t), k) ==> Below(t.values, k)
    ensures InOrder(t) == [] ==> t.values == []
  {
    InOrderOfLevel(t, h, last, degree);
    if h > 0 { WeaveValues(t.values, t.children); }
  }
}
