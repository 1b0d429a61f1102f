/** Sequences of key/value pairs in strictly increasing key order, the abstract
    contents of the B-tree, and how they relate to finite maps. */
module SortedSeq {
  import opened Options
  import opened Seqs

  /** Mapped values are never inspected by the containers. */
  type Value(==, !new, 00)

  /** Keys are integers, standing for any totally ordered key type. */
  datatype KV = KV(key: int, value: Value)

  ghost predicate Below(s: seq<KV>, key: int) {
    forall i :: 0 <= i < |s| ==> s[i].key < key
  }

  ghost predicate Above(s: seq<KV>, key: int) {
    forall i :: 0 <= i < |s| ==> key < s[i].key
  }

  ghost predicate Sorted(s: seq<KV>) {
    s == [] || (Above(s[1..], s[0].key) && Sorted(s[1..]))
  }

  /** In key order, where keys may repeat. */
  ghost predicate InOrderOfKeys(s: seq<KV>) {
    forall i, j :: 0 <= i < j < |s| ==> s[i].key <= s[j].key
  }

  ghost predicate HasKey(s: seq<KV>, key: int) {
    exists i :: 0 <= i < |s| && s[i].key == key
  }

  /** The position std::lower_bound finds in a sorted sequence: the first element
      whose key is not less. */
  function LowerBound(s: seq<KV>, key: int): (i: nat)
    ensures i <= |s|
  {
    if s == [] || key <= s[0].key then 0 else 1 + LowerBound(s[1..], key)
  }

  lemma {:induction false} LowerBoundSplits(s: seq<KV>, key: int)
    ensures var i := LowerBound(s, key);
            Below(s[..i], key) && (i < |s| ==> key <= s[i].key)
  {
    if s != [] && s[0].key < key {
      LowerBoundSplits(s[1..], key);
      var i := LowerBound(s[1..], key);
      assert s[..i + 1] == [s[0]] + s[1..][..i];
    }
  }

  /** The abstract operations on sorted contents. */
  function Insert(s: seq<KV>, kv: KV): seq<KV> {
    if s == [] || kv.key <= s[0].key then [kv] + s else [s[0]] + Insert(s[1..], kv)
  }

  function Delete(s: seq<KV>, key: int): seq<KV> {
    if s == [] || key < s[0].key then s
    else if key == s[0].key then s[1..]
    else [s[0]] + Delete(s[1..], key)
  }

  function Lookup(s: seq<KV>, key: int): Option<Value> {
    if s == [] || key < s[0].key then None
    else if key == s[0].key then Some(s[0].value)
    else Lookup(s[1..], key)
  }

  function ToMap(s: seq<KV>): map<int, Value> {
    if s == [] then map[] else ToMap(s[1..])[s[0].key := s[0].value]
  }

  lemma {:induction false} MapDomain(s: seq<KV>, key: int)
    ensures key in ToMap(s) <==> HasKey(s, key)
  {
    if s != [] {
      MapDomain(s[1..], key);
      assert HasKey(s, key) <==> s[0].key == key || HasKey(s[1..], key) by {
        if HasKey(s[1..], key) {
          var i :| 0 <= i < |s[1..]| && s[1..][i].key == key;
          assert s[i + 1].key == key;
        }
      }
    }
  }

  /** Inserting a fresh key keeps the order and is map update. */
  lemma {:induction false} InsertIsUpdate(s: seq<KV>, kv: KV)
    requires Sorted(s) && kv.key !in ToMap(s)
    ensures Sorted(Insert(s, kv))
    ensures ToMap(Insert(s, kv)) == ToMap(s)[kv.key := kv.value]
    ensures forall k :: k < kv.key && Above(s, k) ==> Above(Insert(s, kv), k)
  {
    if s != [] && s[0].key < kv.key {
      InsertIsUpdate(s[1..], kv);
      forall k | k < kv.key && Above(s, k) ensures Above(Insert(s, kv), k) {
        assert Above(s[1..], k);
      }
    } else if s != [] {
      assert Above(s, kv.key);
    }
  }

  /** Deleting keeps the order and is map removal, key present or not. */
  lemma {:induction false} DeleteIsRemoval(s: seq<KV>, key: int)
    requires Sorted(s)
    ensures Sorted(Delete(s, key))
    ensures ToMap(Delete(s, key)) == ToMap(s) - {key}
    ensures key !in ToMap(s) ==> Delete(s, key) == s
    ensures forall k :: Above(s, k) ==> Above(Delete(s, key), k)
  {
    if s != [] {
      MapDomain(s[1..], key);
      if key > s[0].key { DeleteIsRemoval(s[1..], key); }
      forall k | Above(s, k) ensures Above(Delete(s, key), k) {
        assert Above(s[1..], k);
      }
    }
  }

  /** Looking up is map selection. */
  lemma {:induction false} LookupIsSelect(s: seq<KV>, key: int)
    requires Sorted(s)
    ensures Lookup(s, key) == if key in ToMap(s) then Some(ToMap(s)[key]) else None
  {
    if s != [] {
      LookupIsSelect(s[1..], key);
      MapDomain(s[1..], key);
    }
  }

  lemma {:induction false} SortedConcat(a: seq<KV>, b: seq<KV>)
    ensures Sorted(a + b) <==>
            Sorted(a) && Sorted(b) && (a == [] || Above(b, a[|a| - 1].key))
  {
    if a == [] {
      assert a + b == b;
    } else {
      SortedConcat(a[1..], b);
      assert (a + b)[1..] == a[1..] + b;
      var l := a[|a| - 1].key;
      if |a| > 1 {
        assert Above(a[1..], a[0].key) ==> a[1..][|a| - 2].key > a[0].key;
      }
      assert Above(a[1..] + b, a[0].key) <==> Above(a[1..], a[0].key) && Above(b, a[0].key) by {
        if Above(a[1..] + b, a[0].key) {
          assert forall i :: 0 <= i < |a[1..]| ==> a[1..][i] == (a[1..] + b)[i];
          assert forall i :: 0 <= i < |b| ==> b[i] == (a[1..] + b)[|a[1..]| + i];
        }
      }
    }
  }

  /** In a sorted sequence the ends bound everything. */
  lemma {:induction false} SortedEnds(s: seq<KV>, key: int)
    requires Sorted(s) && s != []
    ensures key < s[0].key ==> Above(s, key)
    ensures s[|s| - 1].key < key ==> Below(s, key)
  {
    if |s| > 1 {
      SortedEnds(s[1..], key);
      assert s[1..][|s| - 2] == s[|s| - 1];
      assert forall i :: 1 <= i < |s| ==> s[i] == s[1..][i - 1];
    }
  }

  /** The abstract operations commute with context: when the key falls strictly
      between a and b, only the middle changes. */
  lemma {:induction false} PrefixContext(a: seq<KV>, s: seq<KV>, kv: KV)
    requires Below(a, kv.key)
    ensures Insert(a + s, kv) == a + Insert(s, kv)
    ensures Delete(a + s, kv.key) == a + Delete(s, kv.key)
    ensures Lookup(a + s, kv.key) == Lookup(s, kv.key)
  {
    ConcatTail(a, s);
    if a != [] {
      PrefixContext(a[1..], s, kv);
      ConsConcat(a, Insert(s, kv));
      ConsConcat(a, Delete(s, kv.key));
    }
  }

  lemma SuffixTerms(s: seq<KV>, b: seq<KV>, kv: KV)
    requires s != []
    ensures [kv] + (s + b) == ([kv] + s) + b
    ensures [s[0]] + (Insert(s[1..], kv) + b) == ([s[0]] + Insert(s[1..], kv)) + b
    ensures [s[0]] + (Delete(s[1..], kv.key) + b) == ([s[0]] + Delete(s[1..], kv.key)) + b
  {
    Associate([kv], s, b);
    Associate([s[0]], Insert(s[1..], kv), b);
    Associate([s[0]], Delete(s[1..], kv.key), b);
  }

  /** Insertion needs no strict bound after the key. */
  lemma {:induction false} SuffixInsert(s: seq<KV>, b: seq<KV>, kv: KV)
    requires b == [] || kv.key <= b[0].key
    ensures Insert(s + b, kv) == Insert(s, kv) + b
  {
    ConcatTail(s, b);
    if s == [] {
      assert [kv] + b == [kv] + s + b;
    } else {
      SuffixInsert(s[1..], b, kv);
      SuffixTerms(s, b, kv);
    }
  }

  lemma {:induction false} SuffixContext(s: seq<KV>, b: seq<KV>, kv: KV)
    requires b == [] || kv.key < b[0].key
    ensures Insert(s + b, kv) == Insert(s, kv) + b
    ensures Delete(s + b, kv.key) == Delete(s, kv.key) + b
    ensures Lookup(s + b, kv.key) == Lookup(s, kv.key)
  {
    ConcatTail(s, b);
    if s == [] {
      assert [kv] + b == [kv] + s + b;
    } else {
      SuffixContext(s[1..], b, kv);
      SuffixTerms(s, b, kv);
    }
  }

  /** A pair, its key in b or not, goes into the middle. */
  lemma InsertWithin(a: seq<KV>, x: seq<KV>, b: seq<KV>, kv: KV)
    requires Sorted(a + x + b)
    requires a == [] || a[|a| - 1].key < kv.key
    requires b == [] || kv.key <= b[0].key
    ensures Sorted(x) && (a != [] ==> Above(x, a[|a| - 1].key))
    ensures Insert(a + x + b, kv) == a + Insert(x, kv) + b
  {
    SortedConcat(a + x, b);
    SortedConcat(a, x);
    if a != [] { SortedEnds(a, kv.key); }
    SuffixInsert(a + x, b, kv);
    PrefixContext(a, x, kv);
  }

  lemma {:induction false} InsertAbove(s: seq<KV>, kv: KV, key: int)
    requires Above(s, key) && key < kv.key
    ensures Above(Insert(s, kv), key)
  {
    if s != [] && s[0].key < kv.key {
      InsertAbove(s[1..], kv, key);
    }
  }

  lemma {:induction false} SortedIsInOrder(s: seq<KV>)
    requires Sorted(s)
    ensures InOrderOfKeys(s)
  {
    if s != [] {
      SortedIsInOrder(s[1..]);
      assert forall i :: 0 < i < |s| ==> s[i] == s[1..][i - 1];
    }
  }

  lemma InOrderJoin(a: seq<KV>, b: seq<KV>)
    requires InOrderOfKeys(a) && InOrderOfKeys(b)
    requires forall i, j :: 0 <= i < |a| && 0 <= j < |b| ==> a[i].key <= b[j].key
    ensures InOrderOfKeys(a + b)
  {
  }

  lemma InOrderSplit(s: seq<KV>, n: nat)
    requires InOrderOfKeys(s) && n <= |s|
    ensures InOrderOfKeys(s[..n]) && InOrderOfKeys(s[n..])
    ensures forall i, j :: 0 <= i < n <= j < |s| ==> s[i].key <= s[j].key
  {
  }

  /** Inserting any pair into distinct keys keeps them in order, and distinct if and only if
      its key was absent. */
  lemma InsertInOrder(s: seq<KV>, kv: KV)
    requires Sorted(s)
    ensures InOrderOfKeys(Insert(s, kv))
    ensures Sorted(Insert(s, kv)) <==> kv.key !in ToMap(s)
  {
    var i := LowerBound(s, kv.key);
    EmplaceAtLowerBound(s, kv);
    LowerBoundSplits(s, kv.key);
    SortedIsInOrder(s);
    InOrderSplit(s, i);
    InOrderJoin(s[..i], [kv]);
    InOrderJoin(s[..i] + [kv], s[i..]);
    if kv.key in ToMap(s) {
      PresentAtLowerBound(s, kv.key);
      SameKeyTwice(s, i, kv);
    } else {
      InsertIsUpdate(s, kv);
    }
  }

  lemma PresentAtLowerBound(s: seq<KV>, key: int)
    requires Sorted(s) && key in ToMap(s)
    ensures var i := LowerBound(s, key); i < |s| && s[i].key == key
  {
    LookupIsSelect(s, key);
    AtLowerBound(s, key);
  }

  lemma SameKeyTwice(s: seq<KV>, i: nat, kv: KV)
    requires i < |s| && s[i].key == kv.key
    ensures !Sorted(s[..i] + [kv] + s[i..])
  {
    var a, b := s[..i] + [kv], s[i..];
    SortedConcat(a, b);
    assert a[|a| - 1] == kv && b[0] == s[i];
  }

  lemma Within(a: seq<KV>, x: seq<KV>, b: seq<KV>, kv: KV)
    requires Sorted(a + x + b)
    requires a == [] || a[|a| - 1].key < kv.key
    requires b == [] || kv.key < b[0].key
    ensures Sorted(x)
    ensures Insert(a + x + b, kv) == a + Insert(x, kv) + b
    ensures Delete(a + x + b, kv.key) == a + Delete(x, kv.key) + b
    ensures Lookup(a + x + b, kv.key) == Lookup(x, kv.key)
  {
    SortedConcat(a + x, b);
    SortedConcat(a, x);
    if a != [] { SortedEnds(a, kv.key); }
    PrefixContext(a, x, kv);
    SuffixContext(a + x, b, kv);
  }

  /** Deleting and finding an element whose position is known. */
  lemma KnownPosition(a: seq<KV>, v: KV, b: seq<KV>)
    requires Sorted(a + [v] + b)
    ensures Delete(a + [v] + b, v.key) == a + b
    ensures Lookup(a + [v] + b, v.key) == Some(v.value)
  {
    assert a + [v] + b == a + ([v] + b);
    SortedConcat(a, [v] + b);
    if a != [] { SortedEnds(a, v.key); }
    PrefixContext(a, [v] + b, v);
  }

  /** The bound is the only position with nothing at or above the key before it. */
  lemma {:induction false} LowerBoundIs(s: seq<KV>, key: int, i: nat)
    requires i <= |s| && Below(s[..i], key) && (i < |s| ==> key <= s[i].key)
    ensures LowerBound(s, key) == i
  {
    if i > 0 {
      assert s[..i][0] == s[0];
      assert s[1..][..i - 1] == s[..i][1..];
      LowerBoundIs(s[1..], key, i - 1);
    }
  }

  /** Emplacing at the lower bound is insertion. */
  lemma EmplaceAtLowerBound(s: seq<KV>, kv: KV)
    ensures var i := LowerBound(s, kv.key); s[..i] + [kv] + s[i..] == Insert(s, kv)
  {
    var i := LowerBound(s, kv.key);
    LowerBoundSplits(s, kv.key);
    TakeDrop(s, i);
    PrefixContext(s[..i], s[i..], kv);
    Associate(s[..i], [kv], s[i..]);
  }

  /** Erasing at the lower bound is deletion, and the key is present exactly when
      the element there has it. */
  lemma AtLowerBound(s: seq<KV>, key: int)
    ensures var i := LowerBound(s, key);
            if i < |s| && s[i].key == key
            then s[..i] + s[i + 1..] == Delete(s, key) && Lookup(s, key) == Some(s[i].value)
            else Delete(s, key) == s && Lookup(s, key) == None
  {
    var i := LowerBound(s, key);
    var v: Value := *;
    LowerBoundSplits(s, key);
    TakeDrop(s, i);
    PrefixContext(s[..i], s[i..], KV(key, v));
  }
}
