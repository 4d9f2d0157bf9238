/**
 The EHCI asynchronous schedule as plain values: the memory the driver and the controller share
 (`Memory`), the abstract state it stands for (`View`), and the invariant tying them.

 Every pool transfer is outside the pool's use, free, loose (held by a running driver routine), the
 dummy of one endpoint, or part of one transaction's chain; every transaction is queued on one
 endpoint or detached by a running routine.
 */
module EhciLayout {
  import opened Chains
  import opened EhciTransfers

  datatype Transaction = Transaction(completion: nat, totalLength: nat, direction: nat, bouncePhys: nat,
                                     first: int, last: int, next: int)

  /** The transfer overlay of a queue head: the descriptor being executed, and the words fetched from it
      (EHCI 1.0, section 3.6). */
  datatype Overlay = Overlay(currentQTD: nat, nextQTD: nat, altNextQTD: nat, token: nat, buffer: seq<nat>)

  const NO_BUFFERS: seq<nat> := [0, 0, 0, 0, 0]

  /** Software endpoint state together with its queue head's link and overlay words. */
  datatype EndpointState = EndpointState(nextEndpoint: int, dummyTransfer: int, transactionHead: int,
                                         transactionTail: int, func: nat, ep: nat, direction: nat, isControl: bool,
                                         maxPacketSize: nat, nextQH: nat, overlay: Overlay)

  datatype Memory = Memory(xs: seq<Transfer>, eps: seq<EndpointState>, txns: seq<Transaction>,
                           freeXfer: int, freeEp: int, epHead: int, headNextQH: nat)

  datatype Owner = Outside | Free | Loose | Dummy(endpoint: int) | Chained(transaction: int)

  datatype Use = Idle | Held | Listed

  datatype View = View(owner: seq<Owner>, free: seq<int>, chain: seq<seq<int>>, home: seq<int>,
                       queue: seq<seq<int>>, use: seq<Use>, listed: seq<int>, idle: seq<int>)

  // ---------------------------------------------------------------- columns

  function NextFree(xs: seq<Transfer>): (next: seq<int>)
    ensures |next| == |xs|
  { seq(|xs|, i requires 0 <= i < |xs| => xs[i].nextFree) }

  function NextTransfer(xs: seq<Transfer>): (next: seq<int>)
    ensures |next| == |xs|
  { seq(|xs|, i requires 0 <= i < |xs| => xs[i].nextTransfer) }

  /** Where the controller goes from each descriptor. */
  function NextQTD(xs: seq<Transfer>): (next: seq<int>)
    ensures |next| == |xs|
  { seq(|xs|, i requires 0 <= i < |xs| => QtdAt(xs[i].nextQTD)) }

  function NextTransaction(txns: seq<Transaction>): (next: seq<int>)
    ensures |next| == |txns|
  { seq(|txns|, i requires 0 <= i < |txns| => txns[i].next) }

  function NextEndpoint(eps: seq<EndpointState>): (next: seq<int>)
    ensures |next| == |eps|
  { seq(|eps|, i requires 0 <= i < |eps| => eps[i].nextEndpoint) }

  function Gather(xs: seq<Transfer>, c: seq<int>): (ts: seq<Transfer>)
    requires forall i :: 0 <= i < |c| ==> 0 <= c[i] < |xs|
    ensures |ts| == |c|
  { seq(|c|, i requires 0 <= i < |c| => xs[c[i]]) }

  // ---------------------------------------------------------------- queue head links

  /** The link word naming endpoint i's queue head; NIL stands for the schedule's own head. */
  function QhLink(i: int): (link: nat)
    requires i >= NIL
    ensures QhAt(link) == i
  {
    64 * (i + 2) + 2
  }

  function QhAt(link: nat): int { link / 64 - 2 }

  // ---------------------------------------------------------------- the invariant

  ghost predicate Shape(m: Memory, v: View)
  {
    && |v.owner| == |m.xs| && |v.chain| == |m.txns| && |v.home| == |m.txns|
    && |v.queue| == |m.eps| && |v.use| == |m.eps|
  }

  ghost predicate FreeOk(xs: seq<Transfer>, freeXfer: int, free: seq<int>, owner: seq<Owner>)
  {
    && |owner| == |xs|
    && Chain(NextFree(xs), freeXfer, free, NIL) && NoDup(free)
    && (forall i :: 0 <= i < |free| ==> 0 <= free[i] < |xs| && owner[free[i]] == Free)
    && (forall x :: 0 <= x < |xs| && owner[x] == Free ==> x in free)
  }

  /** The descriptors c of transaction t, chained by the driver's own links and cut as its length says. */
  ghost predicate ChainOk(xs: seq<Transfer>, owner: seq<Owner>, t: int, txn: Transaction, c: seq<int>)
  {
    && |owner| == |xs|
    && c != [] && NoDup(c) && |c| == TransferCount(txn.totalLength)
    && txn.first == c[0] && txn.last == c[|c| - 1]
    && (forall i :: 0 <= i < |c| ==> 0 <= c[i] < |xs| && owner[c[i]] == Chained(t) && PieceOk(xs[c[i]], txn, i))
    && Chain(NextTransfer(xs), txn.first, c, NIL)
  }

  function Pid(direction: nat): nat
  {
    if direction == USB_IN then PID_IN else if direction == USB_OUT then PID_OUT else PID_SETUP
  }

  ghost predicate PieceOk(x: Transfer, txn: Transaction, i: nat)
  {
    && Offset(i) <= txn.totalLength && x.transferLength == ChunkSize(txn.totalLength, i)
    && x.pid == Pid(txn.direction) && Bytes(x.token) <= x.transferLength
  }

  ghost predicate ChainsOk(m: Memory, v: View)
    requires Shape(m, v)
  {
    && (forall t :: 0 <= t < |m.txns| && v.chain[t] != [] ==> ChainOk(m.xs, v.owner, t, m.txns[t], v.chain[t]))
    && (forall x :: 0 <= x < |m.xs| && v.owner[x].Chained? ==>
          0 <= v.owner[x].transaction < |m.txns| && x in v.chain[v.owner[x].transaction])
  }

  /** The inactive descriptor at the end of an endpoint's queue. */
  ghost predicate DummyOk(x: Transfer) { !Active(x.token) && x.nextQTD == TERMINATE }

  /** The cell behind the k-th queued transaction: the next one's first descriptor, or the dummy. */
  function After(txns: seq<Transaction>, q: seq<int>, k: nat, dummy: int): int
    requires forall i :: 0 <= i < |q| ==> 0 <= q[i] < |txns|
  {
    if k + 1 < |q| then txns[q[k + 1]].first else dummy
  }

  ghost predicate QueueOk(m: Memory, v: View, e: int)
    requires Shape(m, v) && 0 <= e < |m.eps|
  {
    var ep := m.eps[e];
    var q := v.queue[e];
    && NoDup(q)
    && (forall k :: 0 <= k < |q| ==> 0 <= q[k] < |m.txns| && v.home[q[k]] == e && v.chain[q[k]] != [])
    && Chain(NextTransaction(m.txns), ep.transactionHead, q, NIL)
    && ep.transactionTail == (if q == [] then NIL else q[|q| - 1])
    && 0 <= ep.dummyTransfer < |m.xs| && v.owner[ep.dummyTransfer] == Dummy(e) && DummyOk(m.xs[ep.dummyTransfer])
    && (forall k :: 0 <= k < |q| ==> HardwareLinked(m, v, e, k))
  }

  /** The controller's links lead through the k-th queued transaction to what follows it. */
  ghost predicate HardwareLinked(m: Memory, v: View, e: int, k: nat)
    requires Shape(m, v) && 0 <= e < |m.eps| && k < |v.queue[e]|
    requires forall i :: 0 <= i < |v.queue[e]| ==> 0 <= v.queue[e][i] < |m.txns|
  {
    var t := v.queue[e][k];
    Chain(NextQTD(m.xs), m.txns[t].first, v.chain[t], After(m.txns, v.queue[e], k, m.eps[e].dummyTransfer))
  }

  ghost predicate QueuesOk(m: Memory, v: View)
    requires Shape(m, v)
  {
    && (forall e :: 0 <= e < |m.eps| && v.use[e] == Listed ==> QueueOk(m, v, e))
    && (forall e :: 0 <= e < |m.eps| && v.use[e] != Listed ==> v.queue[e] == [])
    && (forall x :: 0 <= x < |m.xs| && v.owner[x].Dummy? ==>
          var e := v.owner[x].endpoint; 0 <= e < |m.eps| && v.use[e] == Listed && m.eps[e].dummyTransfer == x)
    && (forall t :: 0 <= t < |m.txns| && v.home[t] != NIL ==>
          0 <= v.home[t] < |m.eps| && t in v.queue[v.home[t]])
  }

  predicate SameKey(a: EndpointState, b: EndpointState)
  {
    a.func == b.func && a.ep == b.ep && a.direction == b.direction
  }

  /** The list from pointer `head` visits exactly the endpoints in use as `kind`. */
  ghost predicate ListOf(next: seq<int>, head: int, xs: seq<int>, use: seq<Use>, kind: Use)
  {
    && |use| == |next|
    && Chain(next, head, xs, NIL) && NoDup(xs)
    && (forall i :: 0 <= i < |xs| ==> 0 <= xs[i] < |use| && use[xs[i]] == kind)
    && (forall e :: 0 <= e < |use| && use[e] == kind ==> e in xs)
  }

  ghost predicate ListOk(m: Memory, v: View)
    requires Shape(m, v)
  {
    && ListOf(NextEndpoint(m.eps), m.epHead, v.listed, v.use, Listed)
    && ListOf(NextEndpoint(m.eps), m.freeEp, v.idle, v.use, Idle)
  }

  /** Every listed queue head links to the next listed one, the last and the empty list to the head. */
  ghost predicate RingOk(m: Memory, v: View)
    requires Shape(m, v)
  {
    && m.epHead >= NIL && m.headNextQH == QhLink(m.epHead)
    && forall e :: 0 <= e < |m.eps| && v.use[e] == Listed ==>
         m.eps[e].nextEndpoint >= NIL && m.eps[e].nextQH == QhLink(m.eps[e].nextEndpoint)
  }

  ghost predicate KeysOk(m: Memory, v: View)
    requires Shape(m, v)
  {
    && (forall e :: 0 <= e < |m.eps| && v.use[e] == Listed && m.eps[e].isControl ==> m.eps[e].direction == USB_ANY)
    && (forall e, f :: 0 <= e < |m.eps| && 0 <= f < |m.eps| && v.use[e] == Listed && v.use[f] == Listed && e != f ==>
          !SameKey(m.eps[e], m.eps[f]))
  }

  ghost predicate Ok(m: Memory, v: View)
  {
    && Shape(m, v)
    && FreeOk(m.xs, m.freeXfer, v.free, v.owner)
    && ChainsOk(m, v)
    && QueuesOk(m, v)
    && ListOk(m, v)
    && RingOk(m, v)
    && KeysOk(m, v)
  }

  /** Nothing is held by a running routine. */
  ghost predicate Settled(v: View)
  {
    && (forall x :: 0 <= x < |v.owner| ==> v.owner[x] != Loose)
    && (forall e :: 0 <= e < |v.use| ==> v.use[e] != Held)
    && (forall t :: 0 <= t < |v.home| && t < |v.chain| && v.chain[t] != [] ==> v.home[t] != NIL)
  }
}
