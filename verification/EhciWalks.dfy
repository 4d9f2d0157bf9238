/**
 What the invariant of EhciLayout promises to the controller and to the driver: the walk along the
 hardware links of a queue, the ring of queue heads, and the division of the transfer pool.
 */
module EhciWalks {
  import opened Chains
  import opened EhciTransfers
  import opened EhciLayout

  // ---------------------------------------------------------------- one endpoint's queue

  /** The descriptors of the transactions q, in queue order. */
  function Flat(chain: seq<seq<int>>, q: seq<int>): seq<int>
  {
    if q == [] then []
    else (if 0 <= q[0] < |chain| then chain[q[0]] else []) + Flat(chain, q[1..])
  }

  /** The descriptors the controller meets from a link word, until it names none. */
  function Follow(xs: seq<Transfer>, link: nat, fuel: nat): seq<int>
    decreases fuel
  {
    if fuel == 0 || !(0 <= QtdAt(link) < |xs|) then []
    else [QtdAt(link)] + Follow(xs, xs[QtdAt(link)].nextQTD, fuel - 1)
  }

  lemma {:induction false} FollowChain(xs: seq<Transfer>, link: nat, ys: seq<int>, fuel: nat)
    requires Chain(NextQTD(xs), QtdAt(link), ys, NIL) && fuel >= |ys|
    ensures Follow(xs, link, fuel) == ys
    decreases |ys|
  {
    if ys != [] {
      FollowChain(xs, xs[QtdAt(link)].nextQTD, ys[1..], fuel - 1);
      assert ys == [ys[0]] + ys[1..];
    }
  }

  /** Where the queue starts: its first descriptor, or the dummy when nothing is queued. */
  function QueueStart(m: Memory, v: View, e: int): int
    requires Shape(m, v) && 0 <= e < |m.eps|
    requires v.queue[e] != [] ==> 0 <= v.queue[e][0] < |m.txns|
  {
    if v.queue[e] == [] then m.eps[e].dummyTransfer else m.txns[v.queue[e][0]].first
  }

  lemma {:induction false} QueueChainFrom(m: Memory, v: View, e: int, k: nat)
    requires Shape(m, v) && ChainsOk(m, v) && 0 <= e < |m.eps| && QueueOk(m, v, e) && k < |v.queue[e]|
    ensures Chain(NextQTD(m.xs), m.txns[v.queue[e][k]].first, Flat(v.chain, v.queue[e][k..]), m.eps[e].dummyTransfer)
    decreases |v.queue[e]| - k
  {
    hide ChainsOk, ChainOk;
    var q := v.queue[e];
    assert HardwareLinked(m, v, e, k);
    assert q[k..][1..] == q[k + 1..];
    var rest := Flat(v.chain, q[k + 1..]);
    if k + 1 < |q| {
      QueueChainFrom(m, v, e, k + 1);
      ChainConcat(NextQTD(m.xs), m.txns[q[k]].first, v.chain[q[k]], m.txns[q[k + 1]].first, rest,
                  m.eps[e].dummyTransfer);
    } else {
      assert q[k + 1..] == [];
      assert v.chain[q[k]] + rest == v.chain[q[k]];
    }
  }

  lemma AppendDummy(next: seq<int>, a: int, xs: seq<int>, d: int)
    requires Chain(next, a, xs, d) && 0 <= d < |next| && next[d] == NIL
    ensures Chain(next, a, xs + [d], NIL)
  {
    assert [d][1..] == [];
    ChainConcat(next, a, xs, d, [d], NIL);
  }

  /** From an endpoint's first queued descriptor the controller meets the descriptors of all its
      queued transactions in submission order, then the inactive dummy, and nothing else. */
  lemma QueueWalk(m: Memory, v: View, e: int, fuel: nat)
    requires Ok(m, v) && 0 <= e < |m.eps| && v.use[e] == Listed
    requires fuel > |Flat(v.chain, v.queue[e])|
    ensures v.queue[e] != [] ==> 0 <= v.queue[e][0] < |m.txns|
    ensures var d := m.eps[e].dummyTransfer;
      && QueueStart(m, v, e) >= NIL && 0 <= d < |m.xs| && !Active(m.xs[d].token)
      && Follow(m.xs, QtdPhys(QueueStart(m, v, e)), fuel) == Flat(v.chain, v.queue[e]) + [d]
  {
    hide FreeOk, ListOk, RingOk, KeysOk, ChainsOk;
    assert QueueOk(m, v, e);
    var q := v.queue[e];
    var d := m.eps[e].dummyTransfer;
    if q != [] {
      QueueChainFrom(m, v, e, 0);
      assert q[0..] == q;
    }
    var start := QueueStart(m, v, e);
    assert QtdAt(TERMINATE) == NIL;
    AppendDummy(NextQTD(m.xs), start, Flat(v.chain, q), d);
    FollowChain(m.xs, QtdPhys(start), Flat(v.chain, q) + [d], fuel);
  }

  // ---------------------------------------------------------------- the ring of queue heads

  /** The endpoints whose queue heads the controller visits from a link word until it is back at the
      schedule head. */
  function RingFollow(eps: seq<EndpointState>, link: nat, fuel: nat): seq<int>
    decreases fuel
  {
    if fuel == 0 || !(0 <= QhAt(link) < |eps|) then []
    else [QhAt(link)] + RingFollow(eps, eps[QhAt(link)].nextQH, fuel - 1)
  }

  /** The link word the controller holds after n steps. */
  function RingLink(eps: seq<EndpointState>, link: nat, n: nat): nat
    decreases n
  {
    if n == 0 || !(0 <= QhAt(link) < |eps|) then link else RingLink(eps, eps[QhAt(link)].nextQH, n - 1)
  }

  lemma {:induction false} RingFrom(eps: seq<EndpointState>, head: int, xs: seq<int>, fuel: nat)
    requires head >= NIL && Chain(NextEndpoint(eps), head, xs, NIL) && fuel >= |xs|
    requires forall e :: e in xs && 0 <= e < |eps| ==>
      eps[e].nextEndpoint >= NIL && eps[e].nextQH == QhLink(eps[e].nextEndpoint)
    ensures RingFollow(eps, QhLink(head), fuel) == xs && RingLink(eps, QhLink(head), |xs|) == QhLink(NIL)
    decreases |xs|
  {
    hide QhLink, QhAt;
    if xs != [] {
      assert head in xs;
      assert forall e :: e in xs[1..] ==> e in xs;
      RingFrom(eps, eps[head].nextEndpoint, xs[1..], fuel - 1);
      assert RingFollow(eps, QhLink(head), fuel) == [head] + RingFollow(eps, eps[head].nextQH, fuel - 1);
      assert RingLink(eps, QhLink(head), |xs|) == RingLink(eps, eps[head].nextQH, |xs[1..]|);
      assert xs == [xs[0]] + xs[1..];
    }
  }

  /** From the schedule head the controller visits exactly the queue heads of the driver's endpoint
      list, in order, and is back at the head. */
  lemma RingWalk(m: Memory, v: View, fuel: nat)
    requires Ok(m, v) && fuel >= |v.listed|
    ensures RingFollow(m.eps, m.headNextQH, fuel) == v.listed
    ensures RingLink(m.eps, m.headNextQH, |v.listed|) == QhLink(NIL)
  {
    hide FreeOk, KeysOk, ChainsOk, QueuesOk;
    RingFrom(m.eps, m.epHead, v.listed, fuel);
  }

  /** No two listed endpoints share function, endpoint number and direction. */
  lemma ListedKeysDistinct(m: Memory, v: View, i: nat, j: nat)
    requires Ok(m, v) && i < |v.listed| && j < |v.listed| && i != j
    ensures 0 <= v.listed[i] < |m.eps| && 0 <= v.listed[j] < |m.eps|
    ensures var a, b := m.eps[v.listed[i]], m.eps[v.listed[j]];
      a.func != b.func || a.ep != b.ep || a.direction != b.direction
  {
  }

  // ---------------------------------------------------------------- the pool

  ghost predicate IsDummyOf(m: Memory, v: View, x: int, e: int)
    requires Shape(m, v)
  {
    0 <= e < |m.eps| && v.use[e] == Listed && m.eps[e].dummyTransfer == x
  }

  ghost predicate InQueued(m: Memory, v: View, x: int, e: int, t: int)
    requires Shape(m, v)
  {
    0 <= e < |m.eps| && v.use[e] == Listed && t in v.queue[e] && 0 <= t < |m.txns| && x in v.chain[t]
  }

  /** Between driver calls every transfer of the pool is in exactly one place: on the free list, the
      dummy of one listed endpoint, or in the chain of one queued transaction. */
  lemma PoolPartition(m: Memory, v: View, x: int)
    requires Ok(m, v) && Settled(v) && 0 <= x < |m.xs| && v.owner[x] != Outside
    ensures x in v.free || (exists e :: IsDummyOf(m, v, x, e)) || (exists e, t :: InQueued(m, v, x, e, t))
    ensures x in v.free ==> !(exists e :: IsDummyOf(m, v, x, e)) && !(exists e, t :: InQueued(m, v, x, e, t))
    ensures (exists e :: IsDummyOf(m, v, x, e)) ==> !(exists e, t :: InQueued(m, v, x, e, t))
    ensures forall e, e' :: IsDummyOf(m, v, x, e) && IsDummyOf(m, v, x, e') ==> e == e'
    ensures forall e, t, e', t' :: InQueued(m, v, x, e, t) && InQueued(m, v, x, e', t') ==> e == e' && t == t'
  {
    hide ListOk, RingOk, KeysOk, QueueOk, ChainOk;
    assert x in v.free ==> v.owner[x] == Free;
    forall e | IsDummyOf(m, v, x, e) ensures v.owner[x] == Dummy(e) { DummyOwner(m, v, e); }
    forall e, t | InQueued(m, v, x, e, t) ensures v.owner[x] == Chained(t) && v.home[t] == e {
      QueuedOwner(m, v, x, e, t);
    }
    match v.owner[x]
    case Free =>
    case Dummy(e) => assert IsDummyOf(m, v, x, e);
    case Chained(t) =>
      assert x in v.chain[t] && v.home[t] != NIL;
      assert t in v.queue[v.home[t]];
      assert InQueued(m, v, x, v.home[t], t);
  }

  lemma DummyOwner(m: Memory, v: View, e: int)
    requires Ok(m, v) && 0 <= e < |m.eps| && v.use[e] == Listed
    ensures 0 <= m.eps[e].dummyTransfer < |m.xs| && v.owner[m.eps[e].dummyTransfer] == Dummy(e)
  {
  }

  lemma QueuedOwner(m: Memory, v: View, x: int, e: int, t: int)
    requires Ok(m, v) && InQueued(m, v, x, e, t)
    ensures 0 <= x < |m.xs| && v.owner[x] == Chained(t) && v.home[t] == e
  {
  }

  // ---------------------------------------------------------------- lengths

  lemma PiecesCut(m: Memory, v: View, t: int)
    requires Ok(m, v) && 0 <= t < |m.txns| && v.chain[t] != []
    ensures forall i :: 0 <= i < |v.chain[t]| ==> 0 <= v.chain[t][i] < |m.xs|
    ensures CutFrom(Gather(m.xs, v.chain[t]), m.txns[t].totalLength)
  {
    hide FreeOk, ListOk, RingOk, KeysOk, QueuesOk;
    var c := v.chain[t];
    assert ChainOk(m.xs, v.owner, t, m.txns[t], c);
    forall k | 0 <= k < |c| ensures PieceOk(Gather(m.xs, c)[k], m.txns[t], k) {}
  }

  /** The descriptors of a chained transaction add up to its length, and no residual exceeds its
      descriptor: when the controller is done with it, the driver's subtraction gives exactly the
      bytes moved. */
  lemma TransferredBytes(m: Memory, v: View, t: int)
    requires Ok(m, v) && 0 <= t < |m.txns| && v.chain[t] != []
    ensures forall i :: 0 <= i < |v.chain[t]| ==> 0 <= v.chain[t][i] < |m.xs|
    ensures var ts := Gather(m.xs, v.chain[t]);
      Judge(ts).Done? ==> m.txns[t].totalLength - Judge(ts).remainder == Moved(ts[..RetiredCount(ts)]) >= 0
  {
    hide FreeOk, ChainsOk, ListOk, RingOk, KeysOk, QueuesOk, Judge;
    PiecesCut(m, v, t);
    var ts := Gather(m.xs, v.chain[t]);
    TotalLength(ts, m.txns[t].totalLength);
    if Judge(ts).Done? { RemainderIsUnmoved(ts, m.txns[t].totalLength); }
  }

  /** For every chained transaction the controller is done with, the driver hands out exactly the bytes
      moved if and only if none moved behind a gap. */
  lemma CopiedBytes(m: Memory, v: View, t: int)
    requires Ok(m, v) && 0 <= t < |m.txns| && v.chain[t] != []
    ensures forall i :: 0 <= i < |v.chain[t]| ==> 0 <= v.chain[t][i] < |m.xs|
    ensures var ts := Gather(m.xs, v.chain[t]);
      Judge(ts).Done? ==>
        ((forall b: nat :: b < m.txns[t].totalLength - Judge(ts).remainder <==> MovedByte(ts, RetiredCount(ts), b))
         <==> NoGap(ts, RetiredCount(ts)))
  {
    hide FreeOk, ChainsOk, ListOk, RingOk, KeysOk, QueuesOk, Judge, MovedByte;
    PiecesCut(m, v, t);
    var ts := Gather(m.xs, v.chain[t]);
    if Judge(ts).Done? { CopiedIffNoGap(ts, m.txns[t].totalLength); }
  }
}
