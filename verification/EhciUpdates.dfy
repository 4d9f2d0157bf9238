/**
 How the driver's elementary writes change memory and view together, and that each keeps the
 invariant of EhciLayout.
 */
module EhciUpdates {
  import opened Chains
  import opened EhciTransfers
  import opened EhciLayout

  /** A descriptor cell after initializeTransferDescriptor. */
  function Blank(terminate: bool): Transfer
  {
    Transfer(NIL, NIL, NIL, 0, PID_OUT, if terminate then TERMINATE else 0, TERMINATE, 0, [0, 0, 0, 0, 0])
  }

  predicate InUse(o: Owner) { o.Dummy? || o.Chained? }

  /** Only cells outside any chain and not a dummy changed. */
  ghost predicate PoolOnly(xs: seq<Transfer>, owner: seq<Owner>, xs': seq<Transfer>, owner': seq<Owner>)
  {
    && |xs'| == |xs| == |owner| == |owner'|
    && (forall x :: 0 <= x < |xs| && InUse(owner[x]) ==> xs'[x] == xs[x] && owner'[x] == owner[x])
    && (forall x :: 0 <= x < |xs| && InUse(owner'[x]) ==> InUse(owner[x]))
  }

  lemma ChainOkFrame(xs: seq<Transfer>, owner: seq<Owner>, xs': seq<Transfer>, owner': seq<Owner>,
                     t: int, txn: Transaction, txn': Transaction, c: seq<int>)
    requires ChainOk(xs, owner, t, txn, c) && |xs'| == |xs| == |owner'|
    requires txn' == txn.(next := txn'.next)
    requires forall x :: 0 <= x < |xs| && owner[x] == Chained(t) ==> xs'[x] == xs[x] && owner'[x] == owner[x]
    ensures ChainOk(xs', owner', t, txn', c)
  {
    ChainFrame(NextTransfer(xs), NextTransfer(xs'), txn.first, c, NIL);
  }

  lemma ChainMembers(m: Memory, v: View, t: int)
    requires Shape(m, v) && ChainsOk(m, v) && 0 <= t < |m.txns|
    ensures forall x :: x in v.chain[t] ==> 0 <= x < |m.xs| && v.owner[x] == Chained(t)
  {
  }

  /** Chains depend only on their own cells and records. */
  lemma ChainsFrame(m: Memory, v: View, m': Memory, v': View)
    requires Shape(m, v) && Shape(m', v') && ChainsOk(m, v) && |m'.xs| == |m.xs| && |m'.txns| >= |m.txns|
    requires forall t :: 0 <= t < |m'.txns| && v'.chain[t] != [] ==>
      t < |m.txns| && v'.chain[t] == v.chain[t] && m'.txns[t] == m.txns[t].(next := m'.txns[t].next)
    requires forall x :: 0 <= x < |m.xs| && v.owner[x].Chained? && v'.chain[v.owner[x].transaction] != [] ==>
      m'.xs[x] == m.xs[x] && v'.owner[x] == v.owner[x]
    requires forall x :: 0 <= x < |m.xs| && v'.owner[x].Chained? ==>
      v'.owner[x] == v.owner[x] && v'.chain[v.owner[x].transaction] != []
    ensures ChainsOk(m', v')
  {
    hide ChainOk;
    forall t | 0 <= t < |m'.txns| && v'.chain[t] != []
      ensures ChainOk(m'.xs, v'.owner, t, m'.txns[t], v'.chain[t])
    {
      ChainOkFrame(m.xs, v.owner, m'.xs, v'.owner, t, m.txns[t], m'.txns[t], v.chain[t]);
    }
  }

  /** A queue depends only on its endpoint's pointers, its transactions and their cells. */
  lemma QueueFrame(m: Memory, v: View, m': Memory, v': View, f: int)
    requires Shape(m, v) && Shape(m', v') && 0 <= f < |m.eps| && f < |m'.eps|
    requires |m'.xs| == |m.xs| && |m.txns| <= |m'.txns| && ChainsOk(m, v) && QueueOk(m, v, f)
    requires v'.queue[f] == v.queue[f] && SameQueuePointers(m'.eps[f], m.eps[f])
    requires forall t :: 0 <= t < |m.txns| && v.home[t] == f ==>
      (m'.txns[t].next == m.txns[t].next && m'.txns[t].first == m.txns[t].first
       && v'.home[t] == f && v'.chain[t] == v.chain[t])
    requires forall x :: 0 <= x < |m.xs| && v.owner[x].Chained? && v.home[v.owner[x].transaction] == f ==>
      m'.xs[x].nextQTD == m.xs[x].nextQTD
    requires var d := m.eps[f].dummyTransfer; m'.xs[d] == m.xs[d] && v'.owner[d] == v.owner[d]
    ensures QueueOk(m', v', f)
  {
    hide ChainsOk, ChainOk, DummyOk;
    var q := v.queue[f];
    ChainFrame(NextTransaction(m.txns), NextTransaction(m'.txns), m.eps[f].transactionHead, q, NIL);
    forall k | 0 <= k < |q| ensures HardwareLinked(m', v', f, k) {
      assert HardwareLinked(m, v, f, k);
      ChainMembers(m, v, q[k]);
      ChainFrame(NextQTD(m.xs), NextQTD(m'.xs), m.txns[q[k]].first, v.chain[q[k]],
                 After(m.txns, q, k, m.eps[f].dummyTransfer));
    }
  }

  predicate SameQueuePointers(a: EndpointState, b: EndpointState)
  {
    a.transactionHead == b.transactionHead && a.transactionTail == b.transactionTail
      && a.dummyTransfer == b.dummyTransfer
  }

  lemma ChainedInRange(m: Memory, v: View)
    requires Shape(m, v) && ChainsOk(m, v)
    ensures forall x :: 0 <= x < |m.xs| && v.owner[x].Chained? ==> 0 <= v.owner[x].transaction < |m.txns|
  {
  }

  /** The pieces of a listed endpoint's queue that other lemmas start from. */
  lemma QueueParts(m: Memory, v: View, e: int)
    requires Shape(m, v) && QueuesOk(m, v) && 0 <= e < |m.eps| && v.use[e] == Listed
    ensures QueueOk(m, v, e)
    ensures (m.eps[e].transactionHead == NIL) == (v.queue[e] == [])
    ensures v.queue[e] == [] ==> m.eps[e].transactionTail == NIL
    ensures v.queue[e] != [] ==>
      0 <= m.eps[e].transactionTail < |m.txns| && m.eps[e].transactionTail == v.queue[e][|v.queue[e]| - 1]
    ensures 0 <= m.eps[e].dummyTransfer < |m.xs| && v.owner[m.eps[e].dummyTransfer] == Dummy(e)
    ensures DummyOk(m.xs[m.eps[e].dummyTransfer])
  {
  }

  /** Changes to free and loose cells keep everything else. */
  lemma PoolKeeps(m: Memory, v: View, xs': seq<Transfer>, freeXfer': int, owner': seq<Owner>, free': seq<int>)
    requires Ok(m, v) && PoolOnly(m.xs, v.owner, xs', owner')
    requires FreeOk(xs', freeXfer', free', owner')
    ensures Ok(m.(xs := xs', freeXfer := freeXfer'), v.(owner := owner', free := free'))
  {
    hide FreeOk, RingOk, KeysOk, ListOk, ChainOk, QueueOk;
    var m' := m.(xs := xs', freeXfer := freeXfer');
    var v' := v.(owner := owner', free := free');
    ChainsFrame(m, v, m', v');
    forall e | 0 <= e < |m.eps| && v.use[e] == Listed ensures QueueOk(m', v', e) {
      QueueParts(m, v, e);
      QueueFrame(m, v, m', v', e);
    }
    ListSame(m, v, m', v');
  }

  lemma ListSame(m: Memory, v: View, m': Memory, v': View)
    requires Shape(m, v) && Shape(m', v') && ListOk(m, v) && RingOk(m, v) && KeysOk(m, v)
    requires m'.eps == m.eps && m'.epHead == m.epHead && m'.freeEp == m.freeEp && m'.headNextQH == m.headNextQH
    requires v'.use == v.use && v'.listed == v.listed && v'.idle == v.idle
    ensures ListOk(m', v') && RingOk(m', v') && KeysOk(m', v')
  {
  }

  /** One endpoint's queue pointers and overlay do not matter to the endpoint list. */
  lemma OverlaySame(m: Memory, v: View, m': Memory, v': View, e: int)
    requires Shape(m, v) && Shape(m', v') && ListOk(m, v) && RingOk(m, v) && KeysOk(m, v)
    requires 0 <= e < |m.eps| && |m'.eps| == |m.eps|
    requires m'.eps == m.eps[e := m'.eps[e]]
    requires m'.eps[e].nextEndpoint == m.eps[e].nextEndpoint && m'.eps[e].nextQH == m.eps[e].nextQH
    requires SameKey(m'.eps[e], m.eps[e]) && m'.eps[e].isControl == m.eps[e].isControl
    requires m'.epHead == m.epHead && m'.freeEp == m.freeEp && m'.headNextQH == m.headNextQH
    requires v'.use == v.use && v'.listed == v.listed && v'.idle == v.idle
    ensures ListOk(m', v') && RingOk(m', v') && KeysOk(m', v')
  {
    assert NextEndpoint(m'.eps) == NextEndpoint(m.eps);
    KeysSame(m, v, m', v');
  }

  lemma KeysSame(m: Memory, v: View, m': Memory, v': View)
    requires Shape(m, v) && Shape(m', v') && KeysOk(m, v) && |m'.eps| == |m.eps| && v'.use == v.use
    requires forall f :: 0 <= f < |m.eps| ==> SameKey(m'.eps[f], m.eps[f]) && m'.eps[f].isControl == m.eps[f].isControl
    ensures KeysOk(m', v')
  {
  }

  // ---------------------------------------------------------------- the transfer pool

  lemma PopOk(xs: seq<Transfer>, freeXfer: int, free: seq<int>, owner: seq<Owner>, cell: Transfer)
    requires FreeOk(xs, freeXfer, free, owner) && freeXfer != NIL
    ensures free != [] && freeXfer == free[0] && 0 <= freeXfer < |xs| && owner[freeXfer] == Free
    ensures FreeOk(xs[freeXfer := cell], xs[freeXfer].nextFree, free[1..], owner[freeXfer := Loose])
  {
    var xs' := xs[freeXfer := cell];
    ChainFrame(NextFree(xs), NextFree(xs'), xs[freeXfer].nextFree, free[1..], NIL);
  }

  lemma PushOk(xs: seq<Transfer>, freeXfer: int, free: seq<int>, owner: seq<Owner>, x: int, cell: Transfer)
    requires FreeOk(xs, freeXfer, free, owner) && 0 <= x < |xs| && owner[x] == Loose
    requires cell.nextFree == freeXfer
    ensures FreeOk(xs[x := cell], x, [x] + free, owner[x := Free])
  {
    var xs' := xs[x := cell];
    ChainFrame(NextFree(xs), NextFree(xs'), freeXfer, free, NIL);
    assert ([x] + free)[1..] == free;
    forall y | 0 <= y < |xs| && owner[x := Free][y] == Free ensures y in [x] + free {
      if y != x { assert y in free; }
    }
  }

  lemma FreeSame(xs: seq<Transfer>, xs': seq<Transfer>, freeXfer: int, free: seq<int>, owner: seq<Owner>,
                 owner': seq<Owner>)
    requires FreeOk(xs, freeXfer, free, owner) && |xs'| == |xs| == |owner'|
    requires forall x :: 0 <= x < |xs| && owner[x] == Free ==> xs'[x] == xs[x] && owner'[x] == Free
    requires forall x :: 0 <= x < |xs| && owner'[x] == Free ==> owner[x] == Free
    ensures FreeOk(xs', freeXfer, free, owner')
  {
    ChainFrame(NextFree(xs), NextFree(xs'), freeXfer, free, NIL);
  }

  lemma AllocateKeeps(m: Memory, v: View, cell: Transfer)
    requires Ok(m, v) && m.freeXfer != NIL
    ensures v.free != [] && v.free[0] == m.freeXfer && 0 <= m.freeXfer < |m.xs| == |v.owner|
    ensures v.owner[m.freeXfer] == Free
    ensures Ok(m.(xs := m.xs[m.freeXfer := cell], freeXfer := m.xs[m.freeXfer].nextFree),
               v.(owner := v.owner[m.freeXfer := Loose], free := v.free[1..]))
  {
    hide ChainsOk, QueuesOk, ListOk, RingOk, KeysOk;
    PopOk(m.xs, m.freeXfer, v.free, v.owner, cell);
    PoolKeeps(m, v, m.xs[m.freeXfer := cell], m.xs[m.freeXfer].nextFree, v.owner[m.freeXfer := Loose], v.free[1..]);
  }

  lemma ReleaseKeeps(m: Memory, v: View, x: int, cell: Transfer)
    requires Ok(m, v) && 0 <= x < |m.xs| && x < |v.owner| && v.owner[x] == Loose && cell.nextFree == m.freeXfer
    ensures Ok(m.(xs := m.xs[x := cell], freeXfer := x), v.(owner := v.owner[x := Free], free := [x] + v.free))
  {
    hide ChainsOk, QueuesOk, ListOk, RingOk, KeysOk;
    PushOk(m.xs, m.freeXfer, v.free, v.owner, x, cell);
    PoolKeeps(m, v, m.xs[x := cell], x, v.owner[x := Free], [x] + v.free);
  }

  /** Writing a loose cell. */
  lemma LooseKeeps(m: Memory, v: View, x: int, cell: Transfer)
    requires Ok(m, v) && 0 <= x < |m.xs| && x < |v.owner| && v.owner[x] == Loose
    ensures Ok(m.(xs := m.xs[x := cell]), v)
  {
    hide ChainsOk, QueuesOk, ListOk, RingOk, KeysOk;
    FreeSame(m.xs, m.xs[x := cell], m.freeXfer, v.free, v.owner, v.owner);
    PoolKeeps(m, v, m.xs[x := cell], m.freeXfer, v.owner, v.free);
    assert v.(owner := v.owner, free := v.free) == v;
  }

  // ---------------------------------------------------------------- hardware

  /** The controller rewriting the token of a descriptor in a chain. */
  lemma TokenKeeps(m: Memory, v: View, x: int, token: nat)
    requires Ok(m, v) && 0 <= x < |m.xs| && x < |v.owner| && v.owner[x].Chained?
      && Bytes(token) <= m.xs[x].transferLength
    ensures Ok(m.(xs := m.xs[x := m.xs[x].(token := token)]), v)
  {
    hide RingOk, KeysOk, ListOk, ChainOk, QueueOk;
    var xs' := m.xs[x := m.xs[x].(token := token)];
    var m' := m.(xs := xs');
    assert FreeOk(xs', m.freeXfer, v.free, v.owner) by { FreeSame(m.xs, xs', m.freeXfer, v.free, v.owner, v.owner); }
    forall t | 0 <= t < |m.txns| && v.chain[t] != [] ensures ChainOk(xs', v.owner, t, m.txns[t], v.chain[t]) {
      TokenChain(m.xs, v.owner, t, m.txns[t], v.chain[t], x, token);
    }
    forall e | 0 <= e < |m.eps| && v.use[e] == Listed ensures QueueOk(m', v, e) {
      TokenQueue(m, v, e, x, token);
    }
    ListSame(m, v, m', v);
  }

  lemma TokenChain(xs: seq<Transfer>, owner: seq<Owner>, t: int, txn: Transaction, c: seq<int>, x: int, token: nat)
    requires ChainOk(xs, owner, t, txn, c) && 0 <= x < |xs| && Bytes(token) <= xs[x].transferLength
    ensures ChainOk(xs[x := xs[x].(token := token)], owner, t, txn, c)
  {
    assert NextTransfer(xs[x := xs[x].(token := token)]) == NextTransfer(xs);
  }

  lemma TokenQueue(m: Memory, v: View, e: int, x: int, token: nat)
    requires Shape(m, v) && 0 <= e < |m.eps| && QueueOk(m, v, e) && 0 <= x < |m.xs| && v.owner[x].Chained?
    ensures QueueOk(m.(xs := m.xs[x := m.xs[x].(token := token)]), v, e)
  {
    var m' := m.(xs := m.xs[x := m.xs[x].(token := token)]);
    assert NextQTD(m'.xs) == NextQTD(m.xs);
    forall k | 0 <= k < |v.queue[e]| ensures HardwareLinked(m', v, e, k) {
      assert HardwareLinked(m, v, e, k);
    }
  }

  // ---------------------------------------------------------------- transactions

  /** A transaction record allocated but not yet holding descriptors. */
  lemma NewTransactionKeeps(m: Memory, v: View, txn: Transaction)
    requires Ok(m, v)
    ensures Ok(m.(txns := m.txns + [txn]), v.(chain := v.chain + [[]], home := v.home + [NIL]))
  {
    hide RingOk, KeysOk, ListOk, ChainOk, QueueOk, FreeOk;
    var m' := m.(txns := m.txns + [txn]);
    var v' := v.(chain := v.chain + [[]], home := v.home + [NIL]);
    ChainsFrame(m, v, m', v');
    forall e | 0 <= e < |m.eps| && v.use[e] == Listed ensures QueueOk(m', v', e) {
      QueueParts(m, v, e);
      QueueFrame(m, v, m', v', e);
    }
    ListSame(m, v, m', v');
  }

  /** The view after the transactions q[..n] of endpoint e are taken off its queue. */
  function Detached(v: View, e: int, n: nat): View
    requires 0 <= e < |v.queue| && n <= |v.queue[e]|
  {
    v.(queue := v.queue[e := v.queue[e][n..]],
       home := seq(|v.home|, t requires 0 <= t < |v.home| => if t in v.queue[e][..n] then NIL else v.home[t]))
  }

  /** The endpoint after its queue is advanced past n transactions. */
  function Advanced(m: Memory, v: View, e: int, n: nat): Memory
    requires 0 <= e < |m.eps| && e < |v.queue| && n <= |v.queue[e]|
  {
    var q := v.queue[e];
    m.(eps := m.eps[e := m.eps[e].(
         transactionHead := if n < |q| then q[n] else NIL,
         transactionTail := if n < |q| then m.eps[e].transactionTail else NIL)])
  }

  /** Taking the first n transactions off a queue. */
  lemma DetachKeeps(m: Memory, v: View, e: int, n: nat)
    requires Ok(m, v) && 0 <= e < |m.eps| && e < |v.queue| && v.use[e] == Listed && n <= |v.queue[e]|
    ensures Ok(Advanced(m, v, e, n), Detached(v, e, n))
  {
    hide RingOk, KeysOk, ListOk, ChainOk, QueueOk, FreeOk;
    var m' := Advanced(m, v, e, n);
    var v' := Detached(v, e, n);
    QueueParts(m, v, e);
    HomesOfQueue(m, v, e);
    ChainsFrame(m, v, m', v');
    forall f | 0 <= f < |m.eps| && v.use[f] == Listed ensures QueueOk(m', v', f) {
      QueueParts(m, v, f);
      if f == e { DetachOwnQueue(m, v, e, n); } else { QueueFrame(m, v, m', v', f); }
    }
    DetachHomes(m, v, e, n);
    OverlaySame(m, v, m', v', e);
  }

  lemma HomesOfQueue(m: Memory, v: View, e: int)
    requires Shape(m, v) && 0 <= e < |m.eps| && QueueOk(m, v, e)
    ensures forall t :: t in v.queue[e] ==> 0 <= t < |m.txns| && v.home[t] == e
  {
  }

  lemma DetachHomes(m: Memory, v: View, e: int, n: nat)
    requires Shape(m, v) && QueuesOk(m, v) && 0 <= e < |m.eps| && n <= |v.queue[e]| && v.use[e] == Listed
    ensures forall t :: 0 <= t < |m.txns| && Detached(v, e, n).home[t] != NIL ==>
      0 <= v.home[t] < |m.eps| && t in Detached(v, e, n).queue[v.home[t]]
  {
  }

  lemma DetachOwnQueue(m: Memory, v: View, e: int, n: nat)
    requires Shape(m, v) && 0 <= e < |m.eps| && QueueOk(m, v, e) && n <= |v.queue[e]|
    ensures QueueOk(Advanced(m, v, e, n), Detached(v, e, n), e)
  {
    hide HardwareLinked, DummyOk, Chain, NoDup, Detached, Advanced;
    var m', v' := Advanced(m, v, e, n), Detached(v, e, n);
    DetachSoftware(m, v, e, n);
    forall k | 0 <= k < |v'.queue[e]| ensures HardwareLinked(m', v', e, k) { DetachLinked(m, v, e, n, k); }
  }

  lemma DetachSoftware(m: Memory, v: View, e: int, n: nat)
    requires Shape(m, v) && 0 <= e < |m.eps| && QueueOk(m, v, e) && n <= |v.queue[e]|
    ensures var m', v' := Advanced(m, v, e, n), Detached(v, e, n);
      && Shape(m', v') && m' == m.(eps := m'.eps) && v' == v.(queue := v'.queue, home := v'.home)
      && m'.eps[e].dummyTransfer == m.eps[e].dummyTransfer && |v'.queue[e]| == |v.queue[e]| - n
      && NoDup(v'.queue[e]) && Chain(NextTransaction(m.txns), m'.eps[e].transactionHead, v'.queue[e], NIL)
      && m'.eps[e].transactionTail == (if v'.queue[e] == [] then NIL else v'.queue[e][|v'.queue[e]| - 1])
      && forall k :: 0 <= k < |v'.queue[e]| ==>
           var t := v'.queue[e][k]; 0 <= t < |m.txns| && v'.home[t] == e && v'.chain[t] != []
  {
    hide HardwareLinked, DummyOk, Chain;
    var q := v.queue[e];
    assert q == q[..n] + q[n..];
    ChainSplit(NextTransaction(m.txns), m.eps[e].transactionHead, q[..n], q[n..], NIL);
    forall t | t in q[n..] ensures t in q && t !in q[..n] {
      var k :| 0 <= k < |q| - n && q[n..][k] == t;
      assert q[n + k] == t;
    }
  }

  lemma DetachLinked(m: Memory, v: View, e: int, n: nat, k: nat)
    requires Shape(m, v) && 0 <= e < |m.eps| && QueueOk(m, v, e) && n + k < |v.queue[e]|
    ensures HardwareLinked(Advanced(m, v, e, n), Detached(v, e, n), e, k)
  {
    hide DummyOk;
    var q, q' := v.queue[e], v.queue[e][n..];
    assert HardwareLinked(m, v, e, n + k);
    assert q'[k] == q[n + k] && (k + 1 < |q'| ==> q'[k + 1] == q[n + k + 1]);
  }

  /** The view after the descriptors of detached transaction t become loose. */
  function Dissolved(v: View, t: int): View
    requires 0 <= t < |v.chain|
  {
    v.(chain := v.chain[t := []],
       owner := seq(|v.owner|, x requires 0 <= x < |v.owner| => if v.owner[x] == Chained(t) then Loose else v.owner[x]))
  }

  lemma DissolveKeeps(m: Memory, v: View, t: int)
    requires Ok(m, v) && 0 <= t < |m.txns| && t < |v.home| && v.home[t] == NIL
    ensures t < |v.chain| && Ok(m, Dissolved(v, t))
    ensures forall x :: x in v.chain[t] ==> 0 <= x < |m.xs| && v.owner[x] == Chained(t)
    ensures forall x :: 0 <= x < |v.owner| && v.owner[x] == Chained(t) ==> x in v.chain[t]
    ensures NoDup(v.chain[t])
    ensures v.chain[t] != [] ==> Chain(NextTransfer(m.xs), m.txns[t].first, v.chain[t], NIL)
  {
    hide RingOk, KeysOk, ListOk, QueueOk;
    var v' := Dissolved(v, t);
    ChainMembers(m, v, t);
    FreeSame(m.xs, m.xs, m.freeXfer, v.free, v.owner, v'.owner);
    ChainsFrame(m, v, m, v');
    forall e | 0 <= e < |m.eps| && v.use[e] == Listed ensures QueueOk(m, v', e) {
      QueueParts(m, v, e);
      QueueFrame(m, v, m, v', e);
    }
    ListSame(m, v, m, v');
  }

  // ---------------------------------------------------------------- submission

  /** The cells after the descriptors c of a transaction are written: chained to each other in order,
      the controller's link of the last one leading to the new dummy. */
  ghost predicate Built(xs: seq<Transfer>, xs': seq<Transfer>, c: seq<int>, newDummy: int, txn: Transaction)
  {
    && |xs'| == |xs|
    && (forall k :: 0 <= k < |c| ==> 0 <= c[k] < |xs| && BuiltAt(xs', c, newDummy, txn, k))
    && (forall x :: 0 <= x < |xs| && x !in c ==> xs'[x] == xs[x])
  }

  ghost predicate BuiltAt(xs: seq<Transfer>, c: seq<int>, newDummy: int, txn: Transaction, k: nat)
    requires k < |c| && 0 <= c[k] < |xs|
  {
    && PieceOk(xs[c[k]], txn, k)
    && xs[c[k]].nextTransfer == (if k + 1 < |c| then c[k + 1] else NIL)
    && QtdAt(xs[c[k]].nextQTD) == (if k + 1 < |c| then c[k + 1] else newDummy)
  }

  lemma {:induction false} BuiltChains(xs: seq<Transfer>, xs': seq<Transfer>, c: seq<int>, newDummy: int,
                                       txn: Transaction, i: nat)
    requires Built(xs, xs', c, newDummy, txn) && i < |c|
    ensures Chain(NextTransfer(xs'), c[i], c[i..], NIL)
    ensures Chain(NextQTD(xs'), c[i], c[i..], newDummy)
    decreases |c| - i
  {
    assert BuiltAt(xs', c, newDummy, txn, i);
    assert c[i..][1..] == c[i + 1..];
    if i + 1 < |c| {
      BuiltChains(xs, xs', c, newDummy, txn, i + 1);
    }
  }

  /** The owners after cells c join transaction t and newDummy ends endpoint e's queue. */
  function Claimed(owner: seq<Owner>, c: seq<int>, t: int, newDummy: int, e: int): seq<Owner>
  {
    seq(|owner|, x requires 0 <= x < |owner| =>
          if x in c then Chained(t) else if x == newDummy then Dummy(e) else owner[x])
  }

  function AppendedView(v: View, e: int, t: int, c: seq<int>, owner': seq<Owner>): View
    requires 0 <= e < |v.queue| && 0 <= t < |v.chain| && t < |v.home|
  {
    v.(owner := owner', chain := v.chain[t := c], home := v.home[t := e], queue := v.queue[e := v.queue[e] + [t]])
  }

  /** Queueing transaction t on endpoint e: behind the tail, or as the head of an empty queue. */
  function AppendedMemory(m: Memory, e: int, t: int, xs': seq<Transfer>, newDummy: int, txn: Transaction): Memory
    requires 0 <= e < |m.eps| && 0 <= t < |m.txns|
    requires m.eps[e].transactionHead == NIL || 0 <= m.eps[e].transactionTail < |m.txns|
  {
    var ep := m.eps[e].(dummyTransfer := newDummy);
    var txns := m.txns[t := txn];
    if ep.transactionHead == NIL then
      m.(xs := xs', eps := m.eps[e := ep.(transactionHead := t, transactionTail := t)], txns := txns)
    else
      m.(xs := xs', eps := m.eps[e := ep.(transactionTail := t)],
         txns := txns[ep.transactionTail := txns[ep.transactionTail].(next := t)])
  }

  /** What a submission needs: loose descriptors behind the endpoint's dummy, a loose inactive cell as
      the new dummy, and an empty transaction record. */
  ghost predicate CanAppend(m: Memory, v: View, e: int, t: int, extras: seq<int>, newDummy: int, txn: Transaction)
    requires Shape(m, v)
  {
    && 0 <= e < |m.eps| && v.use[e] == Listed && 0 <= t < |m.txns| && v.chain[t] == [] && v.home[t] == NIL
    && NoDup(extras) && newDummy !in extras && 0 <= newDummy < |m.xs| && v.owner[newDummy] == Loose
    && DummyOk(m.xs[newDummy])
    && (forall i :: 0 <= i < |extras| ==> 0 <= extras[i] < |m.xs| && v.owner[extras[i]] == Loose)
    && 1 + |extras| == TransferCount(txn.totalLength)
    && txn.first == m.eps[e].dummyTransfer && txn.last == ([txn.first] + extras)[|extras|] && txn.next == NIL
  }

  /** The cells a submission claims: the old dummy and loose cells, nothing else. */
  ghost predicate Claims(m: Memory, v: View, e: int, t: int, xs': seq<Transfer>, owner': seq<Owner>, c: seq<int>,
                         newDummy: int, txn: Transaction)
    requires Shape(m, v)
  {
    && |owner'| == |m.xs| == |xs'| && 0 <= e < |m.eps| && 0 <= t < |m.txns| && v.chain[t] == [] && v.home[t] == NIL
    && c != [] && c[0] == txn.first && txn.last == c[|c| - 1] && |c| == TransferCount(txn.totalLength)
      && txn.next == NIL
    && Built(m.xs, xs', c, newDummy, txn) && NoDup(c)
    && (forall i :: 0 <= i < |c| ==> owner'[c[i]] == Chained(t))
    && 0 <= txn.first < |m.xs| && v.owner[txn.first] == Dummy(e) && owner'[txn.first] == Chained(t)
    && 0 <= newDummy < |m.xs| && owner'[newDummy] == Dummy(e) && xs'[newDummy] == m.xs[newDummy]
    && (forall x :: 0 <= x < |m.xs| && v.owner[x] != Loose && x != txn.first ==>
          xs'[x] == m.xs[x] && owner'[x] == v.owner[x])
    && (forall x :: 0 <= x < |m.xs| && v.owner[x] == Loose ==>
          owner'[x] == Loose || owner'[x] == Chained(t) || (owner'[x] == Dummy(e) && x == newDummy))
    && (forall x :: 0 <= x < |m.xs| && owner'[x] == Chained(t) && v.owner[x] != Chained(t) ==> x in c)
  }

  lemma AppendClaims(m: Memory, v: View, e: int, t: int, xs': seq<Transfer>, extras: seq<int>, newDummy: int,
                     txn: Transaction)
    requires Shape(m, v) && CanAppend(m, v, e, t, extras, newDummy, txn)
    requires 0 <= txn.first < |m.xs| && v.owner[txn.first] == Dummy(e)
    requires Built(m.xs, xs', [txn.first] + extras, newDummy, txn)
    ensures Claims(m, v, e, t, xs', Claimed(v.owner, [txn.first] + extras, t, newDummy, e), [txn.first] + extras,
                   newDummy, txn)
  {
    hide BuiltAt, DummyOk;
    var c := [txn.first] + extras;
    assert forall x :: x in c <==> x == txn.first || x in extras;
  }

  /** Submitting a transaction: its descriptors start at the old dummy, so what the queue ended at
      becomes what it goes on with. */
  lemma AppendKeeps(m: Memory, v: View, e: int, t: int, xs': seq<Transfer>, extras: seq<int>, newDummy: int,
                    txn: Transaction)
    requires Ok(m, v) && CanAppend(m, v, e, t, extras, newDummy, txn)
    requires Built(m.xs, xs', [txn.first] + extras, newDummy, txn)
    ensures m.eps[e].transactionHead == NIL || 0 <= m.eps[e].transactionTail < |m.txns|
    ensures Ok(AppendedMemory(m, e, t, xs', newDummy, txn),
               AppendedView(v, e, t, [txn.first] + extras, Claimed(v.owner, [txn.first] + extras, t, newDummy, e)))
  {
    hide RingOk, KeysOk, ListOk, ChainOk, QueueOk, FreeOk, Built, Claimed, ChainsOk, QueuesOk;
    QueueParts(m, v, e);
    var c := [txn.first] + extras;
    var owner' := Claimed(v.owner, c, t, newDummy, e);
    AppendClaims(m, v, e, t, xs', extras, newDummy, txn);
    AppendOk(m, v, e, t, xs', owner', c, newDummy, txn);
  }

  lemma AppendOk(m: Memory, v: View, e: int, t: int, xs': seq<Transfer>, owner': seq<Owner>, c: seq<int>,
                 newDummy: int, txn: Transaction)
    requires Ok(m, v) && Claims(m, v, e, t, xs', owner', c, newDummy, txn) && v.use[e] == Listed
    requires txn.first == m.eps[e].dummyTransfer && DummyOk(m.xs[newDummy])
    ensures m.eps[e].transactionHead == NIL || 0 <= m.eps[e].transactionTail < |m.txns|
    ensures Ok(AppendedMemory(m, e, t, xs', newDummy, txn), AppendedView(v, e, t, c, owner'))
  {
    hide RingOk, KeysOk, ListOk, ChainOk, QueueOk, FreeOk, Built, ChainsOk, QueuesOk;
    QueueParts(m, v, e);
    var m' := AppendedMemory(m, e, t, xs', newDummy, txn);
    var v' := AppendedView(v, e, t, c, owner');
    FreeSame(m.xs, xs', m.freeXfer, v.free, v.owner, owner');
    HomesOfQueue(m, v, e);
    AppendChains(m, v, e, t, xs', owner', c, newDummy, txn);
    AppendQueues(m, v, m', v', e, t, xs', owner', c, newDummy, txn);
    OverlaySame(m, v, m', v', e);
  }

  lemma AppendChains(m: Memory, v: View, e: int, t: int, xs': seq<Transfer>, owner': seq<Owner>, c: seq<int>,
                     newDummy: int, txn: Transaction)
    requires Shape(m, v) && ChainsOk(m, v) && Claims(m, v, e, t, xs', owner', c, newDummy, txn)
    requires m.eps[e].transactionHead == NIL || 0 <= m.eps[e].transactionTail < |m.txns|
    requires m.eps[e].transactionHead != NIL ==> m.eps[e].transactionTail != t
    ensures ChainsOk(AppendedMemory(m, e, t, xs', newDummy, txn), AppendedView(v, e, t, c, owner'))
  {
    hide ChainOk, Built;
    var m' := AppendedMemory(m, e, t, xs', newDummy, txn);
    var v' := AppendedView(v, e, t, c, owner');
    assert m'.txns[t] == txn;
    NewChain(m.xs, xs', owner', t, c, newDummy, txn);
    forall u | 0 <= u < |m.txns| && v'.chain[u] != [] ensures ChainOk(xs', owner', u, m'.txns[u], v'.chain[u]) {
      if u != t {
        ChainOkFrame(m.xs, v.owner, xs', owner', u, m.txns[u], m'.txns[u], v.chain[u]);
      }
    }
  }

  lemma NewChain(xs: seq<Transfer>, xs': seq<Transfer>, owner': seq<Owner>, t: int, c: seq<int>, newDummy: int,
                 txn: Transaction)
    requires Built(xs, xs', c, newDummy, txn) && NoDup(c) && |owner'| == |xs'|
    requires c != [] && c[0] == txn.first && txn.last == c[|c| - 1] && |c| == TransferCount(txn.totalLength)
    requires forall i :: 0 <= i < |c| ==> owner'[c[i]] == Chained(t)
    ensures ChainOk(xs', owner', t, txn, c)
  {
    BuiltChains(xs, xs', c, newDummy, txn, 0);
    assert c[0..] == c;
    forall i | 0 <= i < |c| ensures PieceOk(xs'[c[i]], txn, i) { assert BuiltAt(xs', c, newDummy, txn, i); }
  }

  lemma AppendQueues(m: Memory, v: View, m': Memory, v': View, e: int, t: int, xs': seq<Transfer>,
                     owner': seq<Owner>, c: seq<int>, newDummy: int, txn: Transaction)
    requires Shape(m, v) && ChainsOk(m, v) && QueuesOk(m, v) && 0 <= e < |m.eps| && 0 <= t < |m.txns|
    requires m.eps[e].transactionHead == NIL || 0 <= m.eps[e].transactionTail < |m.txns|
    requires m' == AppendedMemory(m, e, t, xs', newDummy, txn) && v' == AppendedView(v, e, t, c, owner')
    requires Shape(m', v') && 0 <= newDummy < |m.xs|
    requires Claims(m, v, e, t, xs', owner', c, newDummy, txn) && v.use[e] == Listed
    requires txn.first == m.eps[e].dummyTransfer && DummyOk(m.xs[newDummy])
    ensures QueuesOk(m', v')
  {
    hide ChainsOk, QueueOk, Built, DummyOk;
    ChainedInRange(m, v);
    QueueParts(m, v, e);
    HomesOfQueue(m, v, e);
    forall f | 0 <= f < |m.eps| && v.use[f] == Listed ensures QueueOk(m', v', f) {
      QueueParts(m, v, f);
      if f == e {
        AppendOwnQueue(m, v, m', v', t, e, xs', owner', c, newDummy, txn);
      } else {
        QueueFrame(m, v, m', v', f);
      }
    }
    forall u | 0 <= u < |m.txns| && v'.home[u] != NIL
      ensures 0 <= v'.home[u] < |m.eps| && u in v'.queue[v'.home[u]]
    {
      if u == t { assert v'.queue[e][|v.queue[e]|] == t; } else { assert u in v.queue[v.home[u]]; }
    }
  }

  lemma AppendOwnQueue(m: Memory, v: View, m': Memory, v': View, t: int, e: int, xs': seq<Transfer>,
                       owner': seq<Owner>, c: seq<int>, newDummy: int, txn: Transaction)
    requires Shape(m, v) && ChainsOk(m, v) && 0 <= e < |m.eps| && QueueOk(m, v, e)
    requires 0 <= t < |m.txns| && 0 <= newDummy < |m.xs|
    requires m.eps[e].transactionHead == NIL || 0 <= m.eps[e].transactionTail < |m.txns|
    requires m' == AppendedMemory(m, e, t, xs', newDummy, txn) && v' == AppendedView(v, e, t, c, owner')
    requires Shape(m', v') && Claims(m, v, e, t, xs', owner', c, newDummy, txn)
    requires txn.first == m.eps[e].dummyTransfer && DummyOk(m.xs[newDummy])
    requires (m.eps[e].transactionHead == NIL) == (v.queue[e] == [])
    ensures QueueOk(m', v', e)
  {
    hide ChainOk, DummyOk, Built, ChainsOk, HardwareLinked, Chain;
    var q := v.queue[e];
    AppendTransaction(m.txns, m.eps[e].transactionHead, q, t, txn);
    assert v'.queue[e] == q + [t];
    forall k | 0 <= k <= |q| ensures HardwareLinked(m', v', e, k) {
      if k < |q| {
        AppendLinked(m, v, m', v', t, e, xs', owner', c, newDummy, txn, k);
      } else {
        NewLinked(m, v, m', v', t, e, xs', owner', c, newDummy, txn);
      }
    }
  }

  /** What was queued leads on to the new transaction. */
  lemma AppendLinked(m: Memory, v: View, m': Memory, v': View, t: int, e: int, xs': seq<Transfer>,
                     owner': seq<Owner>, c: seq<int>, newDummy: int, txn: Transaction, k: nat)
    requires Shape(m, v) && ChainsOk(m, v) && 0 <= e < |m.eps| && QueueOk(m, v, e) && k < |v.queue[e]|
    requires 0 <= t < |m.txns| && 0 <= newDummy < |m.xs|
    requires m.eps[e].transactionHead == NIL || 0 <= m.eps[e].transactionTail < |m.txns|
    requires m' == AppendedMemory(m, e, t, xs', newDummy, txn) && v' == AppendedView(v, e, t, c, owner')
    requires Shape(m', v') && Claims(m, v, e, t, xs', owner', c, newDummy, txn)
    requires txn.first == m.eps[e].dummyTransfer
    ensures HardwareLinked(m', v', e, k)
  {
    hide ChainOk, DummyOk, Built, ChainsOk;
    var q := v.queue[e];
    assert HardwareLinked(m, v, e, k);
    ChainMembers(m, v, q[k]);
    assert v'.queue[e] == q + [t];
    assert After(m'.txns, q + [t], k, newDummy) == After(m.txns, q, k, txn.first);
    ChainFrame(NextQTD(m.xs), NextQTD(xs'), m.txns[q[k]].first, v.chain[q[k]], After(m.txns, q, k, txn.first));
  }

  /** The new transaction leads to the new dummy. */
  lemma NewLinked(m: Memory, v: View, m': Memory, v': View, t: int, e: int, xs': seq<Transfer>,
                  owner': seq<Owner>, c: seq<int>, newDummy: int, txn: Transaction)
    requires Shape(m, v) && 0 <= e < |m.eps| && QueueOk(m, v, e) && 0 <= t < |m.txns| && 0 <= newDummy < |m.xs|
    requires m.eps[e].transactionHead == NIL || 0 <= m.eps[e].transactionTail < |m.txns|
    requires m' == AppendedMemory(m, e, t, xs', newDummy, txn) && v' == AppendedView(v, e, t, c, owner')
    requires Shape(m', v') && Claims(m, v, e, t, xs', owner', c, newDummy, txn)
    ensures HardwareLinked(m', v', e, |v.queue[e]|)
  {
    hide DummyOk, Built;
    BuiltChains(m.xs, xs', c, newDummy, txn, 0);
    assert c[0..] == c && v'.queue[e] == v.queue[e] + [t];
  }

  /** The software list of transactions after one is appended. */
  lemma AppendTransaction(txns: seq<Transaction>, head: int, q: seq<int>, t: int, txn: Transaction)
    requires Chain(NextTransaction(txns), head, q, NIL) && NoDup(q) && t !in q && 0 <= t < |txns| && txn.next == NIL
    requires forall k :: 0 <= k < |q| ==> 0 <= q[k] < |txns|
    ensures q == [] ==> Chain(NextTransaction(txns[t := txn]), t, q + [t], NIL)
    ensures q != [] ==> var tail := q[|q| - 1]; var txns1 := txns[t := txn];
      Chain(NextTransaction(txns1[tail := txns1[tail].(next := t)]), head, q + [t], NIL)
  {
    if q == [] {
      assert q + [t] == [t];
      assert [t][1..] == [];
    } else {
      var tail := q[|q| - 1];
      var next := NextTransaction(txns);
      var txns1 := txns[t := txn];
      assert NextTransaction(txns1[tail := txns1[tail].(next := t)]) == next[t := NIL][tail := t];
      ChainAppend(next, head, q, t);
    }
  }

  lemma ChainAppend(next: seq<int>, head: int, q: seq<int>, t: int)
    requires Chain(next, head, q, NIL) && NoDup(q) && q != [] && t !in q && 0 <= t < |next|
    requires 0 <= q[|q| - 1] < |next|
    ensures Chain(next[t := NIL][q[|q| - 1] := t], head, q + [t], NIL)
  {
    var tail := q[|q| - 1];
    var next' := next[t := NIL][tail := t];
    var p := q[..|q| - 1];
    assert q == p + [tail];
    ChainSplit(next, head, p, [tail], NIL);
    ChainFrame(next, next', head, p, tail);
    TwoChain(next', tail, t);
    ChainConcat(next', head, p, tail, [tail, t], NIL);
    assert p + [tail, t] == q + [t];
  }

  lemma TwoChain(next: seq<int>, a: int, b: int)
    requires 0 <= a < |next| && 0 <= b < |next| && next[a] == b && next[b] == NIL
    ensures Chain(next, a, [a, b], NIL)
  {
  }

  /** With an empty queue, a loose inactive cell can take over as the endpoint's dummy. */
  lemma SwapDummyKeeps(m: Memory, v: View, e: int, x: int, cell: Transfer)
    requires Ok(m, v) && 0 <= e < |m.eps| && v.use[e] == Listed && v.queue[e] == []
    requires 0 <= x < |m.xs| && v.owner[x] == Loose && DummyOk(cell)
    ensures 0 <= m.eps[e].dummyTransfer < |m.xs| && v.owner[m.eps[e].dummyTransfer] == Dummy(e)
    ensures Ok(m.(xs := m.xs[x := cell], eps := m.eps[e := m.eps[e].(dummyTransfer := x)]),
               v.(owner := v.owner[m.eps[e].dummyTransfer := Loose][x := Dummy(e)]))
  {
    hide RingOk, KeysOk, ListOk, ChainOk, QueueOk, FreeOk, DummyOk;
    QueueParts(m, v, e);
    var d := m.eps[e].dummyTransfer;
    var m' := m.(xs := m.xs[x := cell], eps := m.eps[e := m.eps[e].(dummyTransfer := x)]);
    var v' := v.(owner := v.owner[d := Loose][x := Dummy(e)]);
    FreeSame(m.xs, m'.xs, m.freeXfer, v.free, v.owner, v'.owner);
    ChainsFrame(m, v, m', v');
    forall f | 0 <= f < |m.eps| && v.use[f] == Listed ensures QueueOk(m', v', f) {
      QueueParts(m, v, f);
      if f == e { EmptyQueueOk(m', v', e); } else { QueueFrame(m, v, m', v', f); }
    }
    OverlaySame(m, v, m', v', e);
  }

  lemma EmptyQueueOk(m': Memory, v': View, e: int)
    requires Shape(m', v') && 0 <= e < |m'.eps|
    requires v'.queue[e] == [] && m'.eps[e].transactionHead == NIL && m'.eps[e].transactionTail == NIL
    requires var d := m'.eps[e].dummyTransfer; 0 <= d < |m'.xs| && v'.owner[d] == Dummy(e) && DummyOk(m'.xs[d])
    ensures QueueOk(m', v', e)
  {
  }

  // ---------------------------------------------------------------- endpoints

  lemma ListFrame(next: seq<int>, next': seq<int>, head: int, xs: seq<int>, use: seq<Use>, use': seq<Use>, kind: Use)
    requires ListOf(next, head, xs, use, kind) && |next'| == |next| == |use'|
    requires forall e :: 0 <= e < |use| && use[e] == kind ==> next'[e] == next[e]
    requires forall e :: 0 <= e < |use| ==> (use'[e] == kind <==> use[e] == kind)
    ensures ListOf(next', head, xs, use', kind)
  {
    ChainFrame(next, next', head, xs, NIL);
  }

  lemma ListPop(next: seq<int>, next': seq<int>, head: int, xs: seq<int>, use: seq<Use>, use': seq<Use>, kind: Use)
    requires ListOf(next, head, xs, use, kind) && head != NIL && |next'| == |next|
    requires 0 <= head < |use| ==> use' == use[head := Held] && kind != Held
    requires forall e :: 0 <= e < |use| && use[e] == kind && e != head ==> next'[e] == next[e]
    ensures xs != [] && head == xs[0] && 0 <= head < |next|
    ensures ListOf(next', next[head], xs[1..], use', kind)
  {
    ChainFrame(next, next', next[head], xs[1..], NIL);
    assert forall i :: 0 <= i < |xs[1..]| ==> xs[1..][i] == xs[i + 1];
    forall e | 0 <= e < |use| && use'[e] == kind ensures e in xs[1..] { assert e in xs; }
  }

  lemma ListPush(next: seq<int>, next': seq<int>, head: int, xs: seq<int>, use: seq<Use>, use': seq<Use>, kind: Use,
                 e: int)
    requires ListOf(next, head, xs, use, kind) && |next'| == |next| && 0 <= e < |next|
    requires use[e] != kind && use' == use[e := kind] && next'[e] == head
    requires forall f :: 0 <= f < |use| && use[f] == kind ==> next'[f] == next[f]
    ensures ListOf(next', e, [e] + xs, use', kind)
  {
    ChainFrame(next, next', head, xs, NIL);
    assert ([e] + xs)[1..] == xs;
    forall f | 0 <= f < |use| && use'[f] == kind ensures f in [e] + xs {
      if f != e { assert f in xs; }
    }
  }

  lemma ListRemove(next: seq<int>, next': seq<int>, head: int, xs: seq<int>, use: seq<Use>, use': seq<Use>, kind: Use,
                   j: nat)
    requires ListOf(next, head, xs, use, kind) && 0 < j < |xs| && kind != Held
    requires 0 <= xs[j - 1] < |next| && 0 <= xs[j] < |next|
    requires next' == next[xs[j - 1] := next[xs[j]]] && use' == use[xs[j] := Held]
    ensures ListOf(next', head, xs[..j] + xs[j + 1..], use', kind)
  {
    var xs' := xs[..j] + xs[j + 1..];
    NoDupRemove(xs, j);
    ChainRemove(next, head, xs, NIL, j - 1);
    assert xs[..j - 1 + 1] + xs[j - 1 + 2..] == xs';
    forall i | 0 <= i < |xs'| ensures 0 <= xs'[i] < |use'| && use'[xs'[i]] == kind {
      assert xs'[i] in xs && xs'[i] != xs[j];
    }
    forall e | 0 <= e < |use| && use'[e] == kind ensures e in xs' {
      assert e in xs && e != xs[j];
      assert xs == xs[..j] + [xs[j]] + xs[j + 1..];
    }
  }

  /** Writing an endpoint's overlay words. */
  lemma OverlayKeeps(m: Memory, v: View, e: int, overlay: Overlay)
    requires Ok(m, v) && 0 <= e < |m.eps|
    ensures Ok(m.(eps := m.eps[e := m.eps[e].(overlay := overlay)]), v)
  {
    hide RingOk, KeysOk, ListOk, ChainOk, QueueOk, FreeOk, DummyOk;
    var m' := m.(eps := m.eps[e := m.eps[e].(overlay := overlay)]);
    ChainsFrame(m, v, m', v);
    forall f | 0 <= f < |m.eps| && v.use[f] == Listed ensures QueueOk(m', v, f) {
      QueueParts(m, v, f);
      QueueFrame(m, v, m', v, f);
    }
    OverlaySame(m, v, m', v, e);
  }

  /** Everything but the endpoint list after a change that spares the queues of listed endpoints. */
  lemma ListChange(m: Memory, v: View, m': Memory, v': View)
    requires Ok(m, v) && Shape(m', v') && |m'.eps| == |m.eps|
    requires m'.xs == m.xs && m'.txns == m.txns && m'.freeXfer == m.freeXfer
    requires v'.owner == v.owner && v'.free == v.free && v'.chain == v.chain && v'.home == v.home && v'.queue == v.queue
    requires forall f :: 0 <= f < |m.eps| ==> (v'.use[f] == Listed <==> v.use[f] == Listed)
    requires forall f :: 0 <= f < |m.eps| && v.use[f] == Listed ==> SameQueuePointers(m'.eps[f], m.eps[f])
    ensures FreeOk(m'.xs, m'.freeXfer, v'.free, v'.owner) && ChainsOk(m', v') && QueuesOk(m', v')
  {
    hide RingOk, KeysOk, ListOk, ChainOk, QueueOk, FreeOk, DummyOk;
    ChainsFrame(m, v, m', v');
    forall f | 0 <= f < |m.eps| && v'.use[f] == Listed ensures QueueOk(m', v', f) {
      QueueParts(m, v, f);
      QueueFrame(m, v, m', v', f);
    }
  }

  /** The ring and the keys look only at listed endpoints. */
  lemma RingKeysSame(m: Memory, v: View, m': Memory, v': View)
    requires Shape(m, v) && Shape(m', v') && RingOk(m, v) && KeysOk(m, v) && |m'.eps| == |m.eps|
    requires forall f :: 0 <= f < |m.eps| ==> (v'.use[f] == Listed <==> v.use[f] == Listed)
    requires forall f :: 0 <= f < |m.eps| && v.use[f] == Listed ==> m'.eps[f] == m.eps[f]
    requires m'.epHead == m.epHead && m'.headNextQH == m.headNextQH
    ensures RingOk(m', v') && KeysOk(m', v')
  {
  }

  /** Taking the first idle endpoint. */
  lemma TakeEndpointKeeps(m: Memory, v: View, cell: EndpointState)
    requires Ok(m, v) && m.freeEp != NIL
    ensures v.idle != [] && m.freeEp == v.idle[0] && 0 <= m.freeEp < |m.eps| == |v.use| && v.use[m.freeEp] == Idle
    ensures Ok(m.(eps := m.eps[m.freeEp := cell], freeEp := m.eps[m.freeEp].nextEndpoint),
               v.(use := v.use[m.freeEp := Held], idle := v.idle[1..]))
  {
    hide QueuesOk, ChainsOk, FreeOk;
    var e := m.freeEp;
    var m' := m.(eps := m.eps[e := cell], freeEp := m.eps[e].nextEndpoint);
    var v' := v.(use := v.use[e := Held], idle := v.idle[1..]);
    TakeList(m, v, cell);
    ListChange(m, v, m', v');
  }

  lemma TakeList(m: Memory, v: View, cell: EndpointState)
    requires Shape(m, v) && ListOk(m, v) && RingOk(m, v) && KeysOk(m, v) && m.freeEp != NIL
    ensures v.idle != [] && m.freeEp == v.idle[0] && 0 <= m.freeEp < |m.eps| && v.use[m.freeEp] == Idle
    ensures var m' := m.(eps := m.eps[m.freeEp := cell], freeEp := m.eps[m.freeEp].nextEndpoint);
            var v' := v.(use := v.use[m.freeEp := Held], idle := v.idle[1..]);
      ListOk(m', v') && RingOk(m', v') && KeysOk(m', v')
  {
    hide ListOk;
    TakeListOk(m, v, cell);
    RingKeysSame(m, v, m.(eps := m.eps[m.freeEp := cell], freeEp := m.eps[m.freeEp].nextEndpoint),
                 v.(use := v.use[m.freeEp := Held], idle := v.idle[1..]));
  }

  lemma TakeListOk(m: Memory, v: View, cell: EndpointState)
    requires Shape(m, v) && ListOk(m, v) && m.freeEp != NIL
    ensures v.idle != [] && m.freeEp == v.idle[0] && 0 <= m.freeEp < |m.eps| && v.use[m.freeEp] == Idle
    ensures ListOk(m.(eps := m.eps[m.freeEp := cell], freeEp := m.eps[m.freeEp].nextEndpoint),
                   v.(use := v.use[m.freeEp := Held], idle := v.idle[1..]))
  {
    var next := NextEndpoint(m.eps);
    var next' := NextEndpoint(m.eps[m.freeEp := cell]);
    ListPop(next, next', m.freeEp, v.idle, v.use, v.use[m.freeEp := Held], Idle);
    ListFrame(next, next', m.epHead, v.listed, v.use, v.use[m.freeEp := Held], Listed);
  }

  /** Returning a held endpoint. */
  lemma ReturnEndpointKeeps(m: Memory, v: View, e: int, cell: EndpointState)
    requires Ok(m, v) && 0 <= e < |m.eps| && v.use[e] == Held && cell.nextEndpoint == m.freeEp
    ensures Ok(m.(eps := m.eps[e := cell], freeEp := e), v.(use := v.use[e := Idle], idle := [e] + v.idle))
  {
    hide QueuesOk, ChainsOk, FreeOk;
    ReturnList(m, v, e, cell);
    ListChange(m, v, m.(eps := m.eps[e := cell], freeEp := e), v.(use := v.use[e := Idle], idle := [e] + v.idle));
  }

  lemma ReturnList(m: Memory, v: View, e: int, cell: EndpointState)
    requires Shape(m, v) && ListOk(m, v) && RingOk(m, v) && KeysOk(m, v)
    requires 0 <= e < |m.eps| && v.use[e] == Held && cell.nextEndpoint == m.freeEp
    ensures var m' := m.(eps := m.eps[e := cell], freeEp := e);
            var v' := v.(use := v.use[e := Idle], idle := [e] + v.idle);
      ListOk(m', v') && RingOk(m', v') && KeysOk(m', v')
  {
    hide ListOk;
    ReturnListOk(m, v, e, cell);
    RingKeysSame(m, v, m.(eps := m.eps[e := cell], freeEp := e), v.(use := v.use[e := Idle], idle := [e] + v.idle));
  }

  lemma ReturnListOk(m: Memory, v: View, e: int, cell: EndpointState)
    requires Shape(m, v) && ListOk(m, v)
    requires 0 <= e < |m.eps| && v.use[e] == Held && cell.nextEndpoint == m.freeEp
    ensures ListOk(m.(eps := m.eps[e := cell], freeEp := e), v.(use := v.use[e := Idle], idle := [e] + v.idle))
  {
    hide ListOf;
    var next, next' := NextEndpoint(m.eps), NextEndpoint(m.eps[e := cell]);
    ListPush(next, next', m.freeEp, v.idle, v.use, v.use[e := Idle], Idle, e);
    ListFrame(next, next', m.epHead, v.listed, v.use, v.use[e := Idle], Listed);
  }

  /** Writing a held endpoint. */
  lemma HeldKeeps(m: Memory, v: View, e: int, cell: EndpointState)
    requires Ok(m, v) && 0 <= e < |m.eps| && v.use[e] == Held
    ensures Ok(m.(eps := m.eps[e := cell]), v)
  {
    hide QueuesOk, ChainsOk, FreeOk, ListOf, QueueOk;
    var eps' := m.eps[e := cell];
    ListFrame(NextEndpoint(m.eps), NextEndpoint(eps'), m.epHead, v.listed, v.use, v.use, Listed);
    ListFrame(NextEndpoint(m.eps), NextEndpoint(eps'), m.freeEp, v.idle, v.use, v.use, Idle);
    ListChange(m, v, m.(eps := eps'), v);
  }

  /** The endpoints and the head's link after endpoint e is linked in front of the list. */
  function LinkedFirst(m: Memory, e: int): Memory
    requires 0 <= e < |m.eps| && m.epHead >= NIL
  {
    m.(eps := m.eps[e := m.eps[e].(nextEndpoint := m.epHead, nextQH := QhLink(m.epHead))],
       headNextQH := QhLink(e), epHead := e)
  }

  function ListedFirst(v: View, e: int, d: int): View
    requires 0 <= e < |v.use| && 0 <= d < |v.owner|
  {
    v.(use := v.use[e := Listed], listed := [e] + v.listed, owner := v.owner[d := Dummy(e)])
  }

  /** Listing a held endpoint under a key no listed endpoint has, with a loose cell as its dummy. */
  lemma LinkFirstKeeps(m: Memory, v: View, e: int)
    requires Ok(m, v) && 0 <= e < |m.eps| && v.use[e] == Held
    requires m.eps[e].transactionHead == NIL && m.eps[e].transactionTail == NIL
    requires var d := m.eps[e].dummyTransfer; 0 <= d < |m.xs| && v.owner[d] == Loose && DummyOk(m.xs[d])
    requires m.eps[e].isControl ==> m.eps[e].direction == USB_ANY
    requires forall f :: 0 <= f < |m.eps| && v.use[f] == Listed ==> !SameKey(m.eps[f], m.eps[e])
    ensures m.epHead >= NIL && Ok(LinkedFirst(m, e), ListedFirst(v, e, m.eps[e].dummyTransfer))
  {
    hide RingOk, KeysOk, ListOk, ChainOk, QueueOk, FreeOk, DummyOk;
    LinkFirstList(m, v, e);
    var d := m.eps[e].dummyTransfer;
    var m' := LinkedFirst(m, e);
    var v' := ListedFirst(v, e, d);
    FreeSame(m.xs, m.xs, m.freeXfer, v.free, v.owner, v'.owner);
    ChainsFrame(m, v, m', v');
    forall f | 0 <= f < |m.eps| && v'.use[f] == Listed ensures QueueOk(m', v', f) {
      if f == e {
        EmptyQueueOk(m', v', e);
      } else {
        QueueParts(m, v, f);
        QueueFrame(m, v, m', v', f);
      }
    }
  }

  lemma LinkFirstList(m: Memory, v: View, e: int)
    requires Shape(m, v) && ListOk(m, v) && RingOk(m, v) && KeysOk(m, v) && 0 <= e < |m.eps| && v.use[e] == Held
    requires var d := m.eps[e].dummyTransfer; 0 <= d < |m.xs|
    requires m.eps[e].isControl ==> m.eps[e].direction == USB_ANY
    requires forall f :: 0 <= f < |m.eps| && v.use[f] == Listed ==> !SameKey(m.eps[f], m.eps[e])
    ensures m.epHead >= NIL
    ensures var m' := LinkedFirst(m, e); var v' := ListedFirst(v, e, m.eps[e].dummyTransfer);
      ListOk(m', v') && RingOk(m', v') && KeysOk(m', v')
  {
    hide ListOk, RingOk, KeysOk;
    LinkFirstRing(m, v, e);
    LinkFirstListOk(m, v, e);
    LinkFirstKeys(m, v, e);
  }

  lemma LinkFirstRing(m: Memory, v: View, e: int)
    requires Shape(m, v) && RingOk(m, v) && 0 <= e < |m.eps|
    requires var d := m.eps[e].dummyTransfer; 0 <= d < |m.xs|
    ensures m.epHead >= NIL && RingOk(LinkedFirst(m, e), ListedFirst(v, e, m.eps[e].dummyTransfer))
  {
  }

  lemma LinkFirstKeys(m: Memory, v: View, e: int)
    requires Shape(m, v) && KeysOk(m, v) && 0 <= e < |m.eps| && m.epHead >= NIL
    requires var d := m.eps[e].dummyTransfer; 0 <= d < |m.xs|
    requires m.eps[e].isControl ==> m.eps[e].direction == USB_ANY
    requires forall f :: 0 <= f < |m.eps| && v.use[f] == Listed ==> !SameKey(m.eps[f], m.eps[e])
    ensures KeysOk(LinkedFirst(m, e), ListedFirst(v, e, m.eps[e].dummyTransfer))
  {
  }

  lemma LinkFirstListOk(m: Memory, v: View, e: int)
    requires Shape(m, v) && ListOk(m, v) && m.epHead >= NIL && 0 <= e < |m.eps| && v.use[e] == Held
    requires var d := m.eps[e].dummyTransfer; 0 <= d < |m.xs|
    ensures ListOk(LinkedFirst(m, e), ListedFirst(v, e, m.eps[e].dummyTransfer))
  {
    hide ListOf;
    var next, next' := NextEndpoint(m.eps), NextEndpoint(LinkedFirst(m, e).eps);
    ListPush(next, next', m.epHead, v.listed, v.use, v.use[e := Listed], Listed, e);
    ListFrame(next, next', m.freeEp, v.idle, v.use, v.use[e := Listed], Idle);
  }

  /** The memory after the endpoint at position j of the list is unlinked: the first through the list
      head and the schedule head's link, a later one through its predecessor's two links. */
  function UnlinkedAt(m: Memory, listed: seq<int>, j: nat): Memory
    requires j < |listed| && forall i :: 0 <= i < |listed| ==> 0 <= listed[i] < |m.eps|
    requires m.eps[listed[0]].nextEndpoint >= NIL
  {
    if j == 0 then
      var next := m.eps[listed[0]].nextEndpoint;
      m.(epHead := next, headNextQH := QhLink(next))
    else
      var e, p := listed[j], listed[j - 1];
      m.(eps := m.eps[p := m.eps[p].(nextEndpoint := m.eps[e].nextEndpoint, nextQH := m.eps[e].nextQH)])
  }

  function UnlistedAt(v: View, j: nat, d: int): View
    requires j < |v.listed| && 0 <= v.listed[j] < |v.use| && 0 <= d < |v.owner|
  {
    v.(use := v.use[v.listed[j] := Held], listed := v.listed[..j] + v.listed[j + 1..], owner := v.owner[d := Loose])
  }

  lemma ListedFacts(m: Memory, v: View, j: nat)
    requires Ok(m, v) && j < |v.listed|
    ensures forall i :: 0 <= i < |v.listed| ==> 0 <= v.listed[i] < |m.eps| && v.use[v.listed[i]] == Listed
    ensures m.eps[v.listed[0]].nextEndpoint >= NIL
    ensures 0 <= m.eps[v.listed[j]].dummyTransfer < |m.xs|
  {
  }

  lemma UnlinkKeeps(m: Memory, v: View, j: nat)
    requires Ok(m, v) && j < |v.listed|
    requires 0 <= v.listed[j] < |v.queue| && v.queue[v.listed[j]] == []
    ensures forall i :: 0 <= i < |v.listed| ==> 0 <= v.listed[i] < |m.eps|
    ensures m.eps[v.listed[0]].nextEndpoint >= NIL && 0 <= m.eps[v.listed[j]].dummyTransfer < |m.xs|
    ensures Ok(UnlinkedAt(m, v.listed, j), UnlistedAt(v, j, m.eps[v.listed[j]].dummyTransfer))
  {
    hide RingOk, KeysOk, ListOk, ChainOk, QueueOk, FreeOk, DummyOk;
    ListedFacts(m, v, j);
    var e := v.listed[j];
    QueueParts(m, v, e);
    var d := m.eps[e].dummyTransfer;
    UnlinkList(m, v, j);
    var m' := UnlinkedAt(m, v.listed, j);
    var v' := UnlistedAt(v, j, d);
    FreeSame(m.xs, m.xs, m.freeXfer, v.free, v.owner, v'.owner);
    ChainsFrame(m, v, m', v');
    forall f | 0 <= f < |m.eps| && v'.use[f] == Listed ensures QueueOk(m', v', f) {
      QueueParts(m, v, f);
      QueueFrame(m, v, m', v', f);
    }
  }

  lemma UnlinkList(m: Memory, v: View, j: nat)
    requires Shape(m, v) && ListOk(m, v) && RingOk(m, v) && KeysOk(m, v) && j < |v.listed|
    requires forall i :: 0 <= i < |v.listed| ==> 0 <= v.listed[i] < |m.eps| && v.use[v.listed[i]] == Listed
    requires 0 <= m.eps[v.listed[j]].dummyTransfer < |m.xs|
    requires m.eps[v.listed[0]].nextEndpoint >= NIL
    ensures var m' := UnlinkedAt(m, v.listed, j); var v' := UnlistedAt(v, j, m.eps[v.listed[j]].dummyTransfer);
      ListOk(m', v') && RingOk(m', v') && KeysOk(m', v')
  {
    hide ListOk, RingOk, KeysOk;
    UnlinkListOk(m, v, j);
    UnlinkRing(m, v, j);
  }

  lemma UnlinkRing(m: Memory, v: View, j: nat)
    requires Shape(m, v) && RingOk(m, v) && KeysOk(m, v) && j < |v.listed|
    requires forall i :: 0 <= i < |v.listed| ==> 0 <= v.listed[i] < |m.eps| && v.use[v.listed[i]] == Listed
    requires m.eps[v.listed[0]].nextEndpoint >= NIL && 0 <= m.eps[v.listed[j]].dummyTransfer < |m.xs|
    ensures var m' := UnlinkedAt(m, v.listed, j); var v' := UnlistedAt(v, j, m.eps[v.listed[j]].dummyTransfer);
      RingOk(m', v') && KeysOk(m', v')
  {
  }

  lemma ListHead(next: seq<int>, head: int, xs: seq<int>, use: seq<Use>)
    requires ListOf(next, head, xs, use, Listed) && xs != []
    ensures head == xs[0] && 0 <= head < |use|
  {
  }

  lemma UnlinkListOk(m: Memory, v: View, j: nat)
    requires Shape(m, v) && ListOk(m, v) && j < |v.listed|
    requires forall i :: 0 <= i < |v.listed| ==> 0 <= v.listed[i] < |m.eps| && v.use[v.listed[i]] == Listed
    requires 0 <= m.eps[v.listed[j]].dummyTransfer < |m.xs| && m.eps[v.listed[0]].nextEndpoint >= NIL
    ensures ListOk(UnlinkedAt(m, v.listed, j), UnlistedAt(v, j, m.eps[v.listed[j]].dummyTransfer))
  {
    hide ListOf;
    var e := v.listed[j];
    var next, next' := NextEndpoint(m.eps), NextEndpoint(UnlinkedAt(m, v.listed, j).eps);
    var use' := v.use[e := Held];
    if j == 0 {
      ListHead(next, m.epHead, v.listed, v.use);
      ListPop(next, next', m.epHead, v.listed, v.use, use', Listed);
      assert v.listed[..0] + v.listed[1..] == v.listed[1..];
    } else {
      assert next' == next[v.listed[j - 1] := next[e]];
      ListRemove(next, next', m.epHead, v.listed, v.use, use', Listed, j);
    }
    ListFrame(next, next', m.freeEp, v.idle, v.use, use', Idle);
  }
}
