/**
 The controller's own place in an endpoint's queue (EHCI 1.0, sections 3.6 and 4.10): its queue head's
 overlay names the descriptor to fetch next.  It fetches active descriptors one after the other and
 rewrites the tokens of those it has fetched; at the inactive dummy it waits.
 */
module EhciOverlay {
  import opened Chains
  import opened EhciTransfers
  import opened EhciLayout
  import opened EhciWalks

  /** The descriptors of an endpoint's queue, in the order of the controller's links. */
  function Cells(m: Memory, v: View, e: int): (w: seq<int>)
    requires Shape(m, v) && 0 <= e < |m.eps|
    ensures w != []
  {
    Flat(v.chain, v.queue[e]) + [m.eps[e].dummyTransfer]
  }

  /** The link names the i-th of the cells, and none from there on has been fetched. */
  ghost predicate FetchedAt(xs: seq<Transfer>, link: nat, w: seq<int>, i: nat)
  {
    && i < |w| && (forall j :: 0 <= j < |w| ==> 0 <= w[j] < |xs|) && QtdAt(link) == w[i]
    && forall j :: i <= j < |w| - 1 ==> Active(xs[w[j]].token)
  }

  /** The controller has fetched the first i descriptors of endpoint e's queue. */
  ghost predicate Fetched(m: Memory, v: View, e: int, i: nat)
    requires Shape(m, v) && 0 <= e < |m.eps|
  {
    FetchedAt(m.xs, m.eps[e].overlay.nextQTD, Cells(m, v, e), i)
  }

  /** The controller has a place in the queue of endpoint e. */
  ghost predicate HasPlace(m: Memory, v: View, e: int)
    requires Shape(m, v) && 0 <= e < |m.eps|
  {
    exists i: nat :: Fetched(m, v, e, i)
  }

  /** The descriptor to fetch next is one of the queue's, which may have retired, or the dummy. */
  ghost predicate Stands(m: Memory, v: View, e: int)
    requires Shape(m, v) && 0 <= e < |m.eps|
  {
    QtdAt(m.eps[e].overlay.nextQTD) in Cells(m, v, e)
  }

  lemma PlaceStands(m: Memory, v: View, e: int)
    requires Shape(m, v) && 0 <= e < |m.eps| && HasPlace(m, v, e)
    ensures Stands(m, v, e)
  {
    var i: nat :| Fetched(m, v, e, i);
    assert Cells(m, v, e)[i] in Cells(m, v, e);
  }

  // ---------------------------------------------------------------- the cells of a queue

  lemma {:induction false} FlatMember(chain: seq<seq<int>>, q: seq<int>, x: int) returns (k: nat)
    requires x in Flat(chain, q)
    ensures k < |q| && 0 <= q[k] < |chain| && x in chain[q[k]]
  {
    if 0 <= q[0] < |chain| && x in chain[q[0]] {
      k := 0;
    } else {
      var j := FlatMember(chain, q[1..], x);
      k := j + 1;
    }
  }

  lemma {:induction false} FlatMore(chain: seq<seq<int>>, q: seq<int>, t: int)
    ensures Flat(chain, q + [t]) == Flat(chain, q) + if 0 <= t < |chain| then chain[t] else []
  {
    if q == [] {
      assert [t][1..] == [];
    } else {
      assert (q + [t])[1..] == q[1..] + [t];
      FlatMore(chain, q[1..], t);
    }
  }

  lemma {:induction false} FlatSame(chain: seq<seq<int>>, chain': seq<seq<int>>, q: seq<int>)
    requires |chain| <= |chain'| && forall k :: 0 <= k < |q| ==> 0 <= q[k] < |chain| && chain'[q[k]] == chain[q[k]]
    ensures Flat(chain', q) == Flat(chain, q)
  {
    if q != [] {
      assert forall k :: 0 <= k < |q[1..]| ==> q[1..][k] == q[k + 1];
      FlatSame(chain, chain', q[1..]);
    }
  }

  /** The controller's links run through all cells of a queue, which are distinct. */
  lemma CellsLinked(m: Memory, v: View, e: int)
    requires Ok(m, v) && 0 <= e < |m.eps| && v.use[e] == Listed
    ensures var w := Cells(m, v, e);
      && NoDup(w) && !Active(m.xs[m.eps[e].dummyTransfer].token)
      && (forall j :: 0 <= j < |w| ==> 0 <= w[j] < |m.xs|)
      && (forall j :: 0 <= j < |w| - 1 ==> QtdAt(m.xs[w[j]].nextQTD) == w[j + 1])
      && Chain(NextQTD(m.xs), w[0], w, NIL)
  {
    hide FreeOk, ListOk, RingOk, KeysOk, ChainsOk;
    assert QueueOk(m, v, e);
    var q, d := v.queue[e], m.eps[e].dummyTransfer;
    var next := NextQTD(m.xs);
    if q != [] {
      QueueChainFrom(m, v, e, 0);
      assert q[0..] == q;
    }
    var start := if q == [] then d else m.txns[q[0]].first;
    assert QtdAt(TERMINATE) == NIL;
    AppendDummy(next, start, Flat(v.chain, q), d);
    var w := Cells(m, v, e);
    assert start == w[0];
    ChainInPool(next, start, w, NIL);
    ChainNoDup(next, start, w);
    forall j | 0 <= j < |w| - 1 ensures QtdAt(m.xs[w[j]].nextQTD) == w[j + 1] {
      ChainLink(next, start, w, NIL, j);
    }
  }

  /** The cell at index i of a queue is the endpoint's dummy or part of a transaction queued on it. */
  lemma CellOwner(m: Memory, v: View, e: int, i: nat)
    requires Ok(m, v) && 0 <= e < |m.eps| && v.use[e] == Listed && i < |Cells(m, v, e)|
    ensures var x := Cells(m, v, e)[i];
      && 0 <= x < |v.owner|
      && (v.owner[x] == Dummy(e) || (v.owner[x].Chained? && v.owner[x].transaction in v.queue[e]))
      && (i == |Cells(m, v, e)| - 1 <==> v.owner[x] == Dummy(e))
  {
    hide FreeOk, ListOk, RingOk, KeysOk;
    assert QueueOk(m, v, e);
    var f := Flat(v.chain, v.queue[e]);
    if i < |f| {
      assert f[i] in f;
      var k := FlatMember(v.chain, v.queue[e], f[i]);
      var t := v.queue[e][k];
      assert ChainOk(m.xs, v.owner, t, m.txns[t], v.chain[t]);
    }
  }

  // ---------------------------------------------------------------- the controller's steps

  /** The descriptor to fetch next is never a free cell: it is the endpoint's dummy or belongs to a
      transaction queued on it. */
  lemma NeverFree(m: Memory, v: View, e: int)
    requires Ok(m, v) && 0 <= e < |m.eps| && v.use[e] == Listed && Stands(m, v, e)
    ensures var x := QtdAt(m.eps[e].overlay.nextQTD);
      && 0 <= x < |m.xs| && v.owner[x] != Free
      && (v.owner[x] == Dummy(e) || (v.owner[x].Chained? && v.owner[x].transaction in v.queue[e]))
  {
    hide FreeOk, ChainsOk, QueuesOk, ListOk, RingOk, KeysOk, Cells;
    var i :| 0 <= i < |Cells(m, v, e)| && Cells(m, v, e)[i] == QtdAt(m.eps[e].overlay.nextQTD);
    CellOwner(m, v, e, i);
  }

  /** A controller with a place can fetch the next descriptor unless that is the dummy. */
  lemma NextActive(m: Memory, v: View, e: int, i: nat)
    requires Ok(m, v) && 0 <= e < |m.eps| && v.use[e] == Listed && Fetched(m, v, e, i)
    ensures var x := QtdAt(m.eps[e].overlay.nextQTD);
      0 <= x < |m.xs| && (Active(m.xs[x].token) <==> i + 1 < |Cells(m, v, e)|)
  {
    hide FreeOk, ChainsOk, QueuesOk, ListOk, RingOk, KeysOk, Cells, Active;
    CellsLinked(m, v, e);
    LastCell(m, v, e);
  }

  lemma LastCell(m: Memory, v: View, e: int)
    requires Shape(m, v) && 0 <= e < |m.eps|
    ensures var w := Cells(m, v, e); w[|w| - 1] == m.eps[e].dummyTransfer
  {
  }

  /** Fetching the next descriptor moves the controller one place on. */
  lemma FetchMoves(m: Memory, v: View, e: int, i: nat)
    requires Ok(m, v) && 0 <= e < |m.eps| && v.use[e] == Listed && Fetched(m, v, e, i) && i + 1 < |Cells(m, v, e)|
    ensures 0 <= QtdAt(m.eps[e].overlay.nextQTD) < |m.xs|
    ensures var next := m.xs[QtdAt(m.eps[e].overlay.nextQTD)].nextQTD;
      FetchedAt(m.xs, next, Cells(m, v, e), i + 1)
  {
    hide FreeOk, ChainsOk, QueuesOk, ListOk, RingOk, KeysOk, Cells, Active;
    CellsLinked(m, v, e);
  }

  /** Rewriting the token of a fetched descriptor leaves every controller's place as it is. */
  lemma WriteKeepsPlace(m: Memory, v: View, e: int, i: nat, j: nat, token: nat, f: int, k: nat)
    requires Ok(m, v) && 0 <= e < |m.eps| && 0 <= f < |m.eps| && v.use[e] == Listed && v.use[f] == Listed
    requires Fetched(m, v, e, i) && j < i && Fetched(m, v, f, k)
    ensures 0 <= Cells(m, v, e)[j] < |m.xs|
    ensures var x := Cells(m, v, e)[j];
      FetchedAt(m.xs[x := m.xs[x].(token := token)], m.eps[f].overlay.nextQTD, Cells(m, v, f), k)
  {
    hide Cells, Active, FreeOk, ChainsOk, QueuesOk, ListOk, RingOk, KeysOk;
    CellsLinked(m, v, e);
    var w, u := Cells(m, v, e), Cells(m, v, f);
    CellOwner(m, v, e, j);
    forall l | k <= l < |u| - 1 ensures u[l] != w[j] {
      CellOwner(m, v, f, l);
      if e != f { QueuedOnce(m, v, e, f); }
    }
  }

  lemma QueuedOnce(m: Memory, v: View, e: int, f: int)
    requires Ok(m, v) && 0 <= e < |m.eps| && 0 <= f < |m.eps| && v.use[e] == Listed && v.use[f] == Listed && e != f
    ensures forall t :: t in v.queue[e] ==> t !in v.queue[f]
  {
    hide FreeOk, ChainsOk, ListOk, RingOk, KeysOk;
    assert QueueOk(m, v, e) && QueueOk(m, v, f);
  }

  // ---------------------------------------------------------------- the driver's steps

  /** Tokens of the cells w that the controller has yet to fetch are as they were. */
  ghost predicate SameTokens(xs: seq<Transfer>, xs': seq<Transfer>, w: seq<int>)
  {
    forall j :: 0 <= j < |w| ==> 0 <= w[j] < |xs| && w[j] < |xs'| && xs'[w[j]].token == xs[w[j]].token
  }

  /** Queueing active descriptors over the dummy leaves the controller's place as it is. */
  lemma AppendKeepsPlace(xs: seq<Transfer>, xs': seq<Transfer>, link: nat, w: seq<int>, i: nat, c: seq<int>, d: int)
    requires FetchedAt(xs, link, w, i) && c != [] && c[0] == w[|w| - 1]
    requires SameTokens(xs, xs', w[..|w| - 1])
    requires forall k :: 0 <= k < |c| ==> 0 <= c[k] < |xs'| && Active(xs'[c[k]].token)
    requires 0 <= d < |xs'|
    ensures FetchedAt(xs', link, w[..|w| - 1] + (c + [d]), i)
  {
    hide Active;
    var w' := w[..|w| - 1] + (c + [d]);
    forall j | i <= j < |w'| - 1 ensures Active(xs'[w'[j]].token) {
      if j < |w| - 1 {
        assert w[..|w| - 1][j] == w[j] == w'[j];
      } else {
        assert w'[j] == c[j - (|w| - 1)];
      }
    }
    assert forall j :: 0 <= j < |w| - 1 ==> w[..|w| - 1][j] == w[j] == w'[j];
  }

  /** Taking off the front of a queue descriptors that have all retired moves the controller's place by
      their number. */
  lemma RemoveKeepsPlace(xs: seq<Transfer>, xs': seq<Transfer>, link: nat, c: seq<int>, w: seq<int>, i: nat)
    requires FetchedAt(xs, link, c + w, i) && w != [] && SameTokens(xs, xs', w)
    requires forall k :: 0 <= k < |c| ==> 0 <= c[k] < |xs| && !Active(xs[c[k]].token)
    ensures i >= |c| && FetchedAt(xs', link, w, i - |c|)
  {
    hide Active;
    assert forall j :: 0 <= j < |w| ==> (c + w)[|c| + j] == w[j];
    assert forall j :: 0 <= j < |c| ==> (c + w)[j] == c[j];
  }

  /** Restarting the controller at the front of a queue gives it a place there if and only if none of
      the queue's descriptors has retired. */
  lemma RestartPlaceIff(xs: seq<Transfer>, link: nat, w: seq<int>)
    requires w != [] && NoDup(w) && (forall j :: 0 <= j < |w| ==> 0 <= w[j] < |xs|) && QtdAt(link) == w[0]
    ensures (exists i: nat :: FetchedAt(xs, link, w, i)) <==> FetchedAt(xs, link, w, 0)
    ensures FetchedAt(xs, link, w, 0) <==> forall j :: 0 <= j < |w| - 1 ==> Active(xs[w[j]].token)
  {
    hide Active;
  }

  /** Of the cells w of a queue the controller has fetched the first i, and is restarted at the n-th.  From
      there it comes to the j-th, fetched before. */
  ghost predicate FetchesAgain(xs: seq<Transfer>, w: seq<int>, i: nat, n: nat, j: nat)
  {
    n <= j < i <= |w| && forall l :: n <= l <= j ==> 0 <= w[l] < |xs| && Active(xs[w[l]].token)
  }

  /** A restart makes the controller fetch again, and move the bytes again of, a descriptor it has fetched
      if and only if it had come past the one it is restarted at and that has not retired. */
  lemma FetchesAgainIff(xs: seq<Transfer>, link: nat, w: seq<int>, i: nat, n: nat)
    requires FetchedAt(xs, link, w, i) && n < |w|
    ensures (exists j: nat :: FetchesAgain(xs, w, i, n, j)) <==> n < i && Active(xs[w[n]].token)
  {
    hide Active;
    if n < i && Active(xs[w[n]].token) { assert FetchesAgain(xs, w, i, n, n); }
  }

  // ---------------------------------------------------------------- every endpoint's place

  /** What keeps the controller standing, or in its place, in the queue of endpoint e. */
  ghost predicate Keeps(m: Memory, v: View, m': Memory, v': View, e: int)
    requires Shape(m, v) && Shape(m', v') && 0 <= e < |m.eps| && e < |m'.eps|
  {
    (HasPlace(m, v, e) ==> HasPlace(m', v', e)) && (Stands(m, v, e) ==> Stands(m', v', e))
  }

  /** The controller keeps standing, and its place, in the queues of all endpoints but one, and has a place in
      those of endpoints that are new. */
  ghost predicate PlacesKept(m: Memory, v: View, m': Memory, v': View, but: int)
  {
    && Shape(m, v) && Shape(m', v') && |m'.eps| == |m.eps|
    && forall f :: 0 <= f < |m.eps| && f != but && v'.use[f] == Listed ==>
         if v.use[f] == Listed then Keeps(m, v, m', v', f) else HasPlace(m', v', f)
  }

  lemma PlacesSame(m: Memory, v: View)
    requires Ok(m, v)
    ensures PlacesKept(m, v, m, v, NIL)
  {
    hide FreeOk, ChainsOk, QueuesOk, ListOk, RingOk, KeysOk;
  }

  lemma PlacesKeptOn(m: Memory, v: View, m1: Memory, v1: View, m': Memory, v': View, but: int)
    requires PlacesKept(m, v, m1, v1, NIL) && PlacesKept(m1, v1, m', v', but) && v1.use == v.use
    ensures PlacesKept(m, v, m', v', but)
  {
    hide HasPlace, Stands;
  }

  /** None of the descriptors of the transactions q has retired. */
  ghost predicate NoneRetired(xs: seq<Transfer>, chain: seq<seq<int>>, q: seq<int>)
  {
    var w := Flat(chain, q);
    forall j :: 0 <= j < |w| && 0 <= w[j] < |xs| ==> Active(xs[w[j]].token)
  }

  /** An endpoint's queue, its descriptors' tokens and its overlay are the same in both states. */
  ghost predicate SameQueue(m: Memory, v: View, m': Memory, v': View, e: int)
    requires Shape(m, v) && Shape(m', v') && 0 <= e < |m.eps| && e < |m'.eps|
  {
    && v'.queue[e] == v.queue[e] && m'.eps[e].overlay == m.eps[e].overlay
    && m'.eps[e].dummyTransfer == m.eps[e].dummyTransfer && |m'.xs| == |m.xs|
    && Flat(v'.chain, v.queue[e]) == Flat(v.chain, v.queue[e])
    && SameTokens(m.xs, m'.xs, Flat(v.chain, v.queue[e]))
  }

  lemma SameKeepsPlace(m: Memory, v: View, m': Memory, v': View, e: int)
    requires Shape(m, v) && Shape(m', v') && 0 <= e < |m.eps| && e < |m'.eps|
    requires SameQueue(m, v, m', v', e)
    ensures Keeps(m, v, m', v', e)
  {
    hide Active, Flat;
    if HasPlace(m, v, e) {
      var i: nat :| Fetched(m, v, e, i);
      var w, f := Cells(m, v, e), Flat(v.chain, v.queue[e]);
      assert forall j :: 0 <= j < |w| - 1 ==> w[j] == f[j];
      assert Fetched(m', v', e, i);
    }
  }

  /** A queue whose chained cells and their transactions' cells are untouched. */
  lemma ChainedKept(m: Memory, v: View, m': Memory, v': View, e: int)
    requires Ok(m, v) && Shape(m', v') && 0 <= e < |m.eps| && e < |m'.eps| && v.use[e] == Listed
    requires v'.queue[e] == v.queue[e] && m'.eps[e].overlay == m.eps[e].overlay
    requires m'.eps[e].dummyTransfer == m.eps[e].dummyTransfer && |m'.xs| == |m.xs| && |v'.chain| >= |v.chain|
    requires forall t :: t in v.queue[e] && 0 <= t < |v.chain| ==> v'.chain[t] == v.chain[t]
    requires forall x :: 0 <= x < |m.xs| && v.owner[x].Chained? && v.owner[x].transaction in v.queue[e] ==>
      m'.xs[x] == m.xs[x]
    ensures SameQueue(m, v, m', v', e)
  {
    hide FreeOk, ChainsOk, ListOk, RingOk, KeysOk, Active, Flat;
    assert QueueOk(m, v, e);
    FlatSame(v.chain, v'.chain, v.queue[e]);
    var f := Flat(v.chain, v.queue[e]);
    forall j | 0 <= j < |f| ensures 0 <= f[j] < |m.xs| && m'.xs[f[j]] == m.xs[f[j]] {
      CellOwner(m, v, e, j);
      assert Cells(m, v, e)[j] == f[j];
    }
  }

  lemma OwnDummy(m: Memory, v: View, e: int)
    requires Ok(m, v) && 0 <= e < |m.eps| && v.use[e] == Listed
    ensures 0 <= m.eps[e].dummyTransfer < |m.xs| && v.owner[m.eps[e].dummyTransfer] == Dummy(e)
  {
  }

  /** A queue, not empty, that grows by a transaction over its old dummy. */
  lemma GrownPlaced(m: Memory, v: View, m': Memory, v': View, e: int, t: int, c: seq<int>)
    requires Ok(m, v) && Ok(m', v') && 0 <= e < |m.eps| && e < |m'.eps| && v.use[e] == Listed && v'.use[e] == Listed
    requires |m'.xs| == |m.xs| && |v.chain| <= |v'.chain| && 0 <= t < |v'.chain| && v'.chain[t] == c
    requires v'.queue[e] == v.queue[e] + [t]
    requires forall u :: u in v.queue[e] && 0 <= u < |v.chain| ==> v'.chain[u] == v.chain[u]
    requires forall x :: 0 <= x < |m.xs| && v.owner[x].Chained? ==> m'.xs[x] == m.xs[x]
    requires c != [] && c[0] == m.eps[e].dummyTransfer && m'.eps[e].overlay == m.eps[e].overlay
    requires forall k :: 0 <= k < |c| ==> 0 <= c[k] < |m'.xs| && Active(m'.xs[c[k]].token)
    ensures Keeps(m, v, m', v', e)
  {
    hide FreeOk, ChainsOk, ListOk, RingOk, KeysOk, Active;
    assert QueueOk(m, v, e);
    var q, d := v.queue[e], m'.eps[e].dummyTransfer;
    var w, f := Cells(m, v, e), Flat(v.chain, q);
    FlatMore(v'.chain, q, t);
    FlatSame(v.chain, v'.chain, q);
    assert w == f + [c[0]] && Cells(m', v', e) == f + (c + [d]);
    assert c[0] in c;
    if HasPlace(m, v, e) { GrownPlace(m, v, m', v', e, c); }
  }

  lemma GrownPlace(m: Memory, v: View, m': Memory, v': View, e: int, c: seq<int>)
    requires Ok(m, v) && Ok(m', v') && 0 <= e < |m.eps| && e < |m'.eps| && v.use[e] == Listed && v'.use[e] == Listed
    requires |m'.xs| == |m.xs| && forall x :: 0 <= x < |m.xs| && v.owner[x].Chained? ==> m'.xs[x] == m.xs[x]
    requires c != [] && c[0] == m.eps[e].dummyTransfer && m'.eps[e].overlay == m.eps[e].overlay
    requires forall k :: 0 <= k < |c| ==> 0 <= c[k] < |m'.xs| && Active(m'.xs[c[k]].token)
    requires Cells(m', v', e) == Flat(v.chain, v.queue[e]) + (c + [m'.eps[e].dummyTransfer])
    requires HasPlace(m, v, e)
    ensures HasPlace(m', v', e)
  {
    hide FreeOk, ChainsOk, QueuesOk, ListOk, RingOk, KeysOk, Active;
    var w, f := Cells(m, v, e), Flat(v.chain, v.queue[e]);
    assert w[..|w| - 1] == f && w[|w| - 1] == c[0];
    OwnDummy(m', v', e);
    var i: nat :| Fetched(m, v, e, i);
    forall j | 0 <= j < |f| ensures 0 <= f[j] < |m.xs| && m'.xs[f[j]] == m.xs[f[j]] {
      CellOwner(m, v, e, j);
      assert Cells(m, v, e)[j] == f[j];
    }
    AppendKeepsPlace(m.xs, m'.xs, m.eps[e].overlay.nextQTD, w, i, c, m'.eps[e].dummyTransfer);
    assert Fetched(m', v', e, i);
  }

  /** A queue whose first transaction, all of whose descriptors have retired, is taken off. */
  lemma AdvancedPlaced(m: Memory, v: View, m': Memory, v': View, e: int)
    requires Ok(m, v) && Ok(m', v') && 0 <= e < |m.eps| == |m'.eps| && v.use[e] == Listed && v'.use[e] == Listed
    requires v.queue[e] != [] && v'.queue[e] == v.queue[e][1..] && HasPlace(m, v, e)
    requires 0 <= v.queue[e][0] < |v.chain| && var c := v.chain[v.queue[e][0]];
      forall k :: 0 <= k < |c| && 0 <= c[k] < |m.xs| ==> !Active(m.xs[c[k]].token)
    requires m'.eps[e].overlay == m.eps[e].overlay && m'.eps[e].dummyTransfer == m.eps[e].dummyTransfer
    requires RestKept(m, v, m', v', e)
    ensures HasPlace(m', v', e)
  {
    hide FreeOk, ChainsOk, QueuesOk, ListOk, RingOk, KeysOk, Active, Flat, RestKept;
    RestCells(m, v, m', v', e);
    var i: nat :| Fetched(m, v, e, i);
    var c := v.chain[v.queue[e][0]];
    var w, w' := Cells(m, v, e), Cells(m', v', e);
    assert w == c + w';
    assert forall k :: 0 <= k < |c| ==> w[k] == c[k];
    RemoveKeepsPlace(m.xs, m'.xs, m.eps[e].overlay.nextQTD, c, w', i);
    assert Fetched(m', v', e, i - |c|);
  }

  /** The transactions behind the first of a queue and their cells are untouched. */
  ghost predicate RestKept(m: Memory, v: View, m': Memory, v': View, e: int)
    requires Shape(m, v) && Shape(m', v') && 0 <= e < |m.eps| && v.queue[e] != []
  {
    && |m'.xs| == |m.xs| && |v'.chain| == |v.chain|
    && (forall t :: t in v.queue[e][1..] && 0 <= t < |v.chain| ==> v'.chain[t] == v.chain[t])
    && (forall x :: 0 <= x < |m.xs| && v.owner[x].Chained? && v.owner[x].transaction in v.queue[e][1..] ==>
          m'.xs[x] == m.xs[x])
    && (forall x :: 0 <= x < |m.xs| && v.owner[x] == Dummy(e) ==> m'.xs[x] == m.xs[x])
  }

  lemma RestCells(m: Memory, v: View, m': Memory, v': View, e: int)
    requires Ok(m, v) && Ok(m', v') && 0 <= e < |m.eps| == |m'.eps| && v.use[e] == Listed && v'.use[e] == Listed
    requires v.queue[e] != [] && v'.queue[e] == v.queue[e][1..]
    requires m'.eps[e].dummyTransfer == m.eps[e].dummyTransfer && RestKept(m, v, m', v', e)
    ensures 0 <= v.queue[e][0] < |v.chain| && Cells(m, v, e) == v.chain[v.queue[e][0]] + Cells(m', v', e)
    ensures Flat(v'.chain, v.queue[e][1..]) == Flat(v.chain, v.queue[e][1..])
    ensures SameTokens(m.xs, m'.xs, Cells(m', v', e))
  {
    hide FreeOk, ChainsOk, ListOk, RingOk, KeysOk, Active;
    assert QueueOk(m, v, e);
    var q := v.queue[e];
    assert forall k :: 0 <= k < |q[1..]| ==> q[1..][k] == q[k + 1];
    FlatSame(v.chain, v'.chain, q[1..]);
    var w := Cells(m', v', e);
    OwnDummy(m, v, e);
    forall j | 0 <= j < |w| ensures 0 <= w[j] < |m.xs| && m'.xs[w[j]] == m.xs[w[j]] {
      if j < |w| - 1 {
        var f := Flat(v.chain, q[1..]);
        assert f[j] == w[j] && f[j] in f;
        var k := FlatMember(v.chain, q[1..], f[j]);
        CellInChain(m, v, q[1..][k], f[j]);
      }
    }
  }

  lemma CellInChain(m: Memory, v: View, t: int, x: int)
    requires Ok(m, v) && 0 <= t < |v.chain| && x in v.chain[t]
    ensures 0 <= x < |m.xs| && v.owner[x] == Chained(t)
  {
  }

  /** A controller restarted at the front of a queue has a place there if and only if none of the queue's
      descriptors has retired. */
  lemma FrontPlacedIff(m: Memory, v: View, e: int)
    requires Ok(m, v) && 0 <= e < |m.eps| && v.use[e] == Listed
    requires QtdAt(m.eps[e].overlay.nextQTD) == Cells(m, v, e)[0]
    ensures Stands(m, v, e) && (HasPlace(m, v, e) <==> NoneRetired(m.xs, v.chain, v.queue[e]))
  {
    hide FreeOk, ChainsOk, QueuesOk, ListOk, RingOk, KeysOk, Active, Flat;
    CellsLinked(m, v, e);
    var w, f := Cells(m, v, e), Flat(v.chain, v.queue[e]);
    RestartPlaceIff(m.xs, m.eps[e].overlay.nextQTD, w);
    assert forall j :: 0 <= j < |f| ==> w[j] == f[j];
    if HasPlace(m, v, e) {
      var i: nat :| Fetched(m, v, e, i);
      assert FetchedAt(m.xs, m.eps[e].overlay.nextQTD, w, i);
    }
    if FetchedAt(m.xs, m.eps[e].overlay.nextQTD, w, 0) { assert Fetched(m, v, e, 0); }
  }

  /** Restarting the controller at the front of what is left of a queue gives it a place there if and
      only if none of the descriptors left has retired. */
  lemma RestartedPlacedIff(m: Memory, v: View, m': Memory, v': View, e: int)
    requires Ok(m, v) && Ok(m', v') && 0 <= e < |m.eps| == |m'.eps| && v.use[e] == Listed && v'.use[e] == Listed
    requires v.queue[e] != [] && v'.queue[e] == v.queue[e][1..]
    requires m'.eps[e].dummyTransfer == m.eps[e].dummyTransfer && RestKept(m, v, m', v', e)
    requires QtdAt(m'.eps[e].overlay.nextQTD) == Cells(m', v', e)[0]
    ensures Stands(m', v', e) && (HasPlace(m', v', e) <==> NoneRetired(m.xs, v.chain, v.queue[e][1..]))
  {
    hide FreeOk, ChainsOk, QueuesOk, ListOk, RingOk, KeysOk, Active, Flat, RestKept;
    RestCells(m, v, m', v', e);
    FrontPlacedIff(m', v', e);
    var w, f := Cells(m', v', e), Flat(v'.chain, v'.queue[e]);
    assert forall j :: 0 <= j < |f| ==> w[j] == f[j];
  }
}
