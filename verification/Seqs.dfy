/** Facts about sequences of anything, stated once so that proofs about particular
    sequences need not look at their elements. */
module Seqs {
  /** The first element and the rest of a concatenation. */
  lemma ConcatTail<T>(a: seq<T>, b: seq<T>)
    ensures a == [] ==> a + b == b
    ensures a != [] ==> (a + b)[0] == a[0] && (a + b)[1..] == a[1..] + b
  {
    if a == [] { assert a + b == b; }
  }

  lemma ConsConcat<T>(a: seq<T>, b: seq<T>)
    requires a != []
    ensures [a[0]] + (a[1..] + b) == a + b
  {
  }

  lemma Associate<T>(a: seq<T>, b: seq<T>, c: seq<T>)
    ensures (a + b) + c == a + (b + c)
  {
  }

  lemma TakeDrop<T>(s: seq<T>, i: nat)
    requires i <= |s|
    ensures s == s[..i] + s[i..]
    ensures i < |s| ==> s[i..][0] == s[i] && s[i..][1..] == s[i + 1..]
  {
  }

  /** The same element n times. */
  function Copies<T>(n: nat, x: T): (s: seq<T>)
    ensures |s| == n && forall i :: 0 <= i < n ==> s[i] == x
  {
    if n == 0 then [] else [x] + Copies(n - 1, x)
  }

  lemma AreCopies<T>(s: seq<T>, x: T)
    requires forall i :: 0 <= i < |s| ==> s[i] == x
    ensures s == Copies(|s|, x)
  {
  }

  lemma CopiesSplit<T>(n: nat, x: T, i: nat)
    requires i <= n
    ensures Copies(n, x)[..i] == Copies(i, x) && Copies(n, x)[i..] == Copies(n - i, x)
  {
    AreCopies(Copies(n, x)[..i], x);
    AreCopies(Copies(n, x)[i..], x);
  }

  lemma CopiesJoin<T>(n: nat, m: nat, x: T)
    ensures Copies(n, x) + Copies(m, x) == Copies(n + m, x)
  {
    AreCopies(Copies(n, x) + Copies(m, x), x);
  }

  lemma SliceCons<T>(s: seq<T>, p: nat, q: nat)
    requires p < q <= |s|
    ensures s[p..q] == [s[p]] + s[p + 1..q]
  {
  }

  lemma SliceSlice<T>(s: seq<T>, p: nat, q: nat, i: nat, j: nat)
    requires i <= j <= q - p && q <= |s|
    ensures s[p..q][i..j] == s[p + i..p + j]
  {
    var t := s[p..q];
    forall k | 0 <= k < j - i ensures t[i..j][k] == s[p + i..p + j][k] {
      assert t[i..j][k] == t[i + k] == s[p + i + k];
    }
  }

  lemma DropTwice<T>(s: seq<T>, x: T, i: nat, j: nat)
    requires i <= j <= |s|
    ensures (s + [x])[j..] == s[i..][j - i..] + [x]
  {
  }

  lemma UpdateAround<T>(s: seq<T>, i: nat, x: T)
    requires i < |s|
    ensures s[i := x][i] == x
    ensures s[i := x][..i] == s[..i] && s[i := x][i + 1..] == s[i + 1..]
  {
  }

  lemma UpdateTwice<T>(s: seq<T>, i: nat, x: T, y: T)
    requires i < |s|
    ensures s[i := x][i := y] == s[i := y]
  {
  }
}
