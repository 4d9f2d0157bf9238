/**
 Singly linked chains threaded through a pool of cells.

 A pool is addressed by cell index; `next` is the column of link fields, one per cell, and NIL
 stands for the null pointer.  `Chain(next, a, xs, z)` says that following the links from pointer
 `a` visits exactly the cells `xs`, in order, and then arrives at pointer `z`.
 */
module Chains {
  const NIL: int := -1

  predicate Chain(next: seq<int>, a: int, xs: seq<int>, z: int)
    decreases |xs|
  {
    if xs == [] then a == z
    else a == xs[0] && 0 <= a < |next| && Chain(next, next[a], xs[1..], z)
  }

  predicate NoDup(xs: seq<int>)
  {
    forall i, j :: 0 <= i < j < |xs| ==> xs[i] != xs[j]
  }

  /** A chain depends only on the links of the cells it visits. */
  lemma {:induction false} ChainFrame(next: seq<int>, next': seq<int>, a: int, xs: seq<int>, z: int)
    requires Chain(next, a, xs, z)
    requires forall x :: x in xs && 0 <= x < |next| ==> x < |next'| && next'[x] == next[x]
    ensures Chain(next', a, xs, z)
    decreases |xs|
  {
    if xs != [] {
      assert forall x :: x in xs[1..] ==> x in xs;
      ChainFrame(next, next', next[a], xs[1..], z);
    }
  }

  /** Every visited cell is a cell of the pool. */
  lemma {:induction false} ChainInPool(next: seq<int>, a: int, xs: seq<int>, z: int)
    requires Chain(next, a, xs, z)
    ensures forall i :: 0 <= i < |xs| ==> 0 <= xs[i] < |next|
    decreases |xs|
  {
    if xs != [] {
      ChainInPool(next, next[a], xs[1..], z);
      assert forall i :: 1 <= i < |xs| ==> xs[i] == xs[1..][i - 1];
    }
  }

  /** Two chains laid end to end are one chain. */
  lemma {:induction false} ChainConcat(next: seq<int>, a: int, xs: seq<int>, m: int, ys: seq<int>, z: int)
    requires Chain(next, a, xs, m) && Chain(next, m, ys, z)
    ensures Chain(next, a, xs + ys, z)
    decreases |xs|
  {
    if xs == [] {
      assert xs + ys == ys;
    } else {
      assert (xs + ys)[1..] == xs[1..] + ys;
      ChainConcat(next, next[a], xs[1..], m, ys, z);
    }
  }

  /** A chain can be cut in front of any of its cells. */
  lemma {:induction false} ChainSplit(next: seq<int>, a: int, xs: seq<int>, ys: seq<int>, z: int)
    requires Chain(next, a, xs + ys, z)
    ensures Chain(next, a, xs, if ys == [] then z else ys[0])
    ensures Chain(next, if ys == [] then z else ys[0], ys, z)
    decreases |xs|
  {
    if xs == [] {
      assert xs + ys == ys;
    } else {
      assert (xs + ys)[1..] == xs[1..] + ys;
      ChainSplit(next, next[a], xs[1..], ys, z);
    }
  }

  /** The link of the last visited cell is the pointer the chain arrives at. */
  lemma {:induction false} ChainLink(next: seq<int>, a: int, xs: seq<int>, z: int, i: nat)
    requires Chain(next, a, xs, z) && i < |xs|
    ensures 0 <= xs[i] < |next|
    ensures next[xs[i]] == if i + 1 < |xs| then xs[i + 1] else z
    decreases |xs|
  {
    if i > 0 {
      ChainLink(next, next[a], xs[1..], z, i - 1);
    } else if |xs| > 1 {
      assert xs[1..][0] == xs[1];
    }
  }

  /** Links and the arrival pointer determine the visited cells: a chain ending in NIL is unique. */
  lemma {:induction false} ChainUnique(next: seq<int>, a: int, xs: seq<int>, ys: seq<int>)
    requires Chain(next, a, xs, NIL) && Chain(next, a, ys, NIL)
    ensures xs == ys
    decreases |xs|
  {
    if xs != [] && ys != [] {
      ChainUnique(next, next[a], xs[1..], ys[1..]);
      assert xs == [xs[0]] + xs[1..] && ys == [ys[0]] + ys[1..];
    }
  }

  /** A chain that ends visits no cell twice. */
  lemma ChainNoDup(next: seq<int>, a: int, xs: seq<int>)
    requires Chain(next, a, xs, NIL)
    ensures NoDup(xs)
  {
    forall i, j | 0 <= i < j < |xs| ensures xs[i] != xs[j] {
      assert xs == xs[..i] + xs[i..] && xs == xs[..j] + xs[j..];
      ChainSplit(next, a, xs[..i], xs[i..], NIL);
      ChainSplit(next, a, xs[..j], xs[j..], NIL);
      if xs[i] == xs[j] { ChainUnique(next, xs[i], xs[i..], xs[j..]); }
    }
  }

  /** Inserting cell `e` behind the head cell of a chain. */
  lemma ChainInsert(next: seq<int>, h: int, xs: seq<int>, z: int, e: int)
    requires Chain(next, h, [h] + xs, z)
    requires 0 <= e < |next| && e != h && e !in xs && h !in xs
    ensures Chain(next[e := next[h]][h := e], h, [h] + ([e] + xs), z)
  {
    var next' := next[e := next[h]][h := e];
    assert ([h] + xs)[1..] == xs;
    ChainFrame(next, next', next[h], xs, z);
    assert ([h] + ([e] + xs))[1..] == [e] + xs;
    assert ([e] + xs)[1..] == xs;
  }

  /** Unlinking the cell behind position `j` by copying its link into its predecessor. */
  lemma {:induction false} ChainRemove(next: seq<int>, a: int, xs: seq<int>, z: int, j: nat)
    requires Chain(next, a, xs, z) && NoDup(xs) && j + 1 < |xs|
    requires 0 <= xs[j] < |next| && 0 <= xs[j + 1] < |next|
    ensures Chain(next[xs[j] := next[xs[j + 1]]], a, xs[..j + 1] + xs[j + 2..], z)
    decreases |xs|
  {
    var next' := next[xs[j] := next[xs[j + 1]]];
    var ys := xs[..j + 1] + xs[j + 2..];
    if j == 0 {
      assert xs[1..][1..] == xs[2..];
      assert ys[1..] == xs[2..];
      assert xs[1] == xs[1..][0] && next[a] == xs[1];
      forall x | x in xs[2..] ensures x != xs[0] {
        var k :| 0 <= k < |xs[2..]| && xs[2..][k] == x;
        assert xs[k + 2] == x;
      }
      ChainFrame(next, next', next[xs[1]], xs[2..], z);
    } else {
      var t := xs[1..];
      assert t[j - 1] == xs[j] && t[j] == xs[j + 1];
      assert ys[1..] == t[..j] + t[j + 1..];
      assert next'[a] == next[a];
      assert NoDup(t);
      ChainRemove(next, next[a], t, z, j - 1);
    }
  }

  /** Removing one element of a duplicate-free sequence leaves it duplicate-free. */
  lemma NoDupRemove(xs: seq<int>, j: nat)
    requires NoDup(xs) && j < |xs|
    ensures NoDup(xs[..j] + xs[j + 1..])
    ensures xs[j] !in xs[..j] + xs[j + 1..]
    ensures forall x :: x in xs[..j] + xs[j + 1..] ==> x in xs
  {
  }

  /** A duplicate-free sequence holds each of its elements once. */
  lemma {:induction false} NoDupCount(xs: seq<int>, e: int)
    requires NoDup(xs)
    ensures multiset(xs)[e] == if e in xs then 1 else 0
  {
    if xs != [] {
      assert xs == [xs[0]] + xs[1..];
      NoDupCount(xs[1..], e);
      if e == xs[0] {
        assert e !in xs[1..];
      }
    }
  }
}
