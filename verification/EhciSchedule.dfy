/**
 The EHCI driver's asynchronous schedule, updated in place: the transfer pool, the endpoint states
 with their queue heads, and the queued transactions.

 The ghost field `v` is the view of EhciLayout; `Valid` is its invariant.  Waiting for the
 controller to start or stop the schedule may time out at any time.
 */
module EhciSchedule {
  import opened Chains
  import opened EhciTransfers
  import opened EhciLayout
  import opened EhciUpdates
  import opened EhciWalks
  import opened EhciOverlay

  const TRANSFER_COUNT: nat := 128
  const ENDPOINT_COUNT: nat := 32

  datatype Completion = Completion(transaction: int, completion: nat, status: IOStatus, remainder: nat)

  /** The outcome of allocating a bounce buffer: an error, or a physically contiguous page-aligned one,
      which is never within 20 KB of the whole address space. */
  datatype Bounce = NoBounce(status: IOStatus) | BounceAt(phys: nat)

  const HIGH_SPEED: nat := 2

  const BLANK_ENDPOINT: EndpointState :=
    EndpointState(NIL, NIL, NIL, NIL, 0, 0, USB_ANY, false, 0, QhLink(NIL),
                  Overlay(0, TERMINATE, TERMINATE, 0, NO_BUFFERS))

  /** The owners after cells cs become o. */
  function Marked(owner: seq<Owner>, cs: seq<int>, o: Owner): (owner': seq<Owner>)
    ensures |owner'| == |owner|
  {
    seq(|owner|, x requires 0 <= x < |owner| => if x in cs then o else owner[x])
  }

  /** The same pool division, queues and endpoint list; transaction records may have come and gone. */
  ghost predicate SameView(v0: View, v: View)
  {
    && v.owner == v0.owner && v.queue == v0.queue && v.use == v0.use && v.listed == v0.listed && v.idle == v0.idle
    && |v.chain| == |v.home| && |v0.chain| == |v0.home| <= |v.home|
    && v.chain[..|v0.chain|] == v0.chain && v.home[..|v0.home|] == v0.home
    && forall u :: |v0.chain| <= u < |v.chain| ==> v.chain[u] == [] && v.home[u] == NIL
  }

  /** Releasing cells one by one puts the last one first on the free list. */
  function Reversed(cs: seq<int>): seq<int>
  {
    if cs == [] then [] else [cs[|cs| - 1]] + Reversed(cs[..|cs| - 1])
  }

  lemma ReversedNone(free: seq<int>)
    ensures Reversed([]) + free == free
  {
  }

  lemma ReversedMore(cs: seq<int>, i: nat, free: seq<int>)
    requires i < |cs|
    ensures cs[..i + 1] == cs[..i] + [cs[i]]
    ensures Reversed(cs[..i + 1]) + free == [cs[i]] + (Reversed(cs[..i]) + free)
  {
  }

  /** The owners after transaction t's cells become free. */
  function Freed(owner: seq<Owner>, t: int): (owner': seq<Owner>)
    ensures |owner'| == |owner|
  {
    seq(|owner|, x requires 0 <= x < |owner| => if owner[x] == Chained(t) then Free else owner[x])
  }

  lemma MarkMore(owner: seq<Owner>, cs: seq<int>, x: int, o: Owner)
    requires 0 <= x < |owner|
    ensures Marked(owner, cs, o)[x := o] == Marked(owner, cs + [x], o)
  {
  }

  /** The overlay token of a rebuilt queue: a control endpoint's is cleared, another's keeps its data
      toggle and ping state only. */
  function RebuiltToken(ep: EndpointState): nat
  {
    if ep.isControl then 0
    else (if ep.overlay.token / TOGGLE % 2 == 1 then TOGGLE else 0) + ep.overlay.token % 2
  }

  /** A restart keeps the data toggle (bit 31) and the ping state (bit 0) of the overlay's token and clears its
      other bits; a control endpoint's token is cleared. */
  lemma RestartToken(ep: EndpointState)
    ensures var token := RebuiltToken(ep);
      && token < 0x1_0000_0000 && token % 0x8000_0000 / 2 == 0 && (ep.isControl ==> token == 0)
      && (!ep.isControl ==> token % 2 == ep.overlay.token % 2
                            && token / 0x8000_0000 == ep.overlay.token / 0x8000_0000 % 2)
  {
  }

  /** The data toggle a control transfer's k-th descriptor carries. */
  function ToggleAt(control: bool, direction: nat, maxPacketSize: nat, size: nat, k: nat): bool
    requires k <= TransferCount(size)
  {
    if k == 0 then control && direction != USB_ANY
    else
      var toggle := ToggleAt(control, direction, maxPacketSize, size, k - 1);
      ChunksCover(size, k - 1);
      var n := ChunkSize(size, k - 1);
      if control && n != 0 && maxPacketSize != 0 && n % maxPacketSize == 0 then !toggle else toggle
  }

  /** Descriptor k of transaction t over cells c, leading to newDummy behind the last. */
  function DescriptorAt(c: seq<int>, newDummy: int, t: int, txn: Transaction, control: bool, maxPacketSize: nat,
                        k: nat): Transfer
    requires k < |c| == TransferCount(txn.totalLength) && newDummy >= NIL && forall i :: 0 <= i < |c| ==> c[i] >= NIL
  {
    ChunksCover(txn.totalLength, k);
    var n := ChunkSize(txn.totalLength, k);
    Transfer(NIL, if k + 1 < |c| then c[k + 1] else NIL, t, n, Pid(txn.direction),
             QtdPhys(if k + 1 < |c| then c[k + 1] else newDummy), TERMINATE,
             MakeToken(Pid(txn.direction), n, k + 1 == |c|,
                       control && ToggleAt(control, txn.direction, maxPacketSize, txn.totalLength, k)),
             if n != 0 then BufferPointers(txn.bouncePhys, Offset(k)) else [0, 0, 0, 0, 0])
  }

  /** The first descriptor of a control transfer's data carries a set toggle, its set-up a clear one; from one
      descriptor to the next it flips exactly if a full descriptor is a number of whole packets. */
  lemma {:induction false} ToggleIs(direction: nat, maxPacketSize: nat, size: nat, k: nat)
    requires k < TransferCount(size)
    ensures ToggleAt(true, direction, maxPacketSize, size, k)
      <==> if maxPacketSize != 0 && CHUNK % maxPacketSize == 0 && k % 2 == 1 then direction == USB_ANY
           else direction != USB_ANY
  {
    if k > 0 {
      ToggleIs(direction, maxPacketSize, size, k - 1);
      ChunksCover(size, k - 1);
      ChunksCover(size, k);
      assert ChunkSize(size, k - 1) == CHUNK;
    }
  }

  /** The words of descriptor k: active, without error bits, three retries, its byte count, packet identifier
      and toggle, an interrupt at the last; and pointers that lead from a page-aligned bounce buffer to its bytes. */
  lemma DescriptorFields(c: seq<int>, newDummy: int, t: int, txn: Transaction, control: bool, maxPacketSize: nat,
                         k: nat)
    requires k < |c| == TransferCount(txn.totalLength) && newDummy >= NIL && forall i :: 0 <= i < |c| ==> c[i] >= NIL
    ensures Offset(k) <= txn.totalLength
    ensures var x := DescriptorAt(c, newDummy, t, txn, control, maxPacketSize, k);
      var n := ChunkSize(txn.totalLength, k);
      var pid := if txn.direction == USB_OUT then 0 else if txn.direction == USB_IN then 1 else 2;
      && x.token % 0x100 == 0x80 && x.token / 0x100 % 4 == x.pid == pid && x.token / 0x400 % 32 == 3
      && (x.token / 0x8000 % 2 == 1 <==> k + 1 == |c|) && x.token / 0x10000 % 0x8000 == x.transferLength == n
      && (x.token / 0x8000_0000 == 1
          <==> control && ToggleAt(control, txn.direction, maxPacketSize, txn.totalLength, k))
      && (txn.bouncePhys % PAGE == 0 && txn.bouncePhys + txn.totalLength <= WORD ==>
            |x.buffer| == 5
            && forall b :: 0 <= b < n ==>
                 PageSelect(x.buffer, b) < 5 && ByteAddress(x.buffer, b) == txn.bouncePhys + Offset(k) + b)
  {
    hide MakeToken, ToggleAt, BufferPointers, PageSelect, ByteAddress, TransferCount;
    ChunksCover(txn.totalLength, k);
    var n := ChunkSize(txn.totalLength, k);
    var toggle := control && ToggleAt(control, txn.direction, maxPacketSize, txn.totalLength, k);
    TokenReadsBack(Pid(txn.direction), n, k + 1 == |c|, toggle);
    LowByte(MakeToken(Pid(txn.direction), n, k + 1 == |c|, toggle));
    if txn.bouncePhys % PAGE == 0 && txn.bouncePhys + txn.totalLength <= WORD {
      forall b | 0 <= b < n
        ensures PageSelect(BufferPointers(txn.bouncePhys, Offset(k)), b) < 5
        ensures ByteAddress(BufferPointers(txn.bouncePhys, Offset(k)), b) == txn.bouncePhys + Offset(k) + b
      {
        DescriptorMapsBytes(txn.bouncePhys, txn.totalLength, k, b);
      }
    }
  }

  lemma LowByte(token: nat)
    requires Active(token) && token % 0x80 == 0
    ensures token % 0x100 == 0x80
  {
  }

  lemma DescriptorBuilt(xs: seq<Transfer>, xs': seq<Transfer>, c: seq<int>, newDummy: int, t: int, txn: Transaction,
                        control: bool, maxPacketSize: nat)
    requires |xs'| == |xs| && |c| == TransferCount(txn.totalLength) && newDummy >= NIL
    requires forall k :: 0 <= k < |c| ==> 0 <= c[k] < |xs|
    requires forall k :: 0 <= k < |c| ==> xs'[c[k]] == DescriptorAt(c, newDummy, t, txn, control, maxPacketSize, k)
    requires forall x :: 0 <= x < |xs| && x !in c ==> xs'[x] == xs[x]
    ensures Built(xs, xs', c, newDummy, txn)
  {
    hide MakeToken, ToggleAt, BufferPointers;
    forall k | 0 <= k < |c| ensures BuiltAt(xs', c, newDummy, txn, k) {
      ChunksCover(txn.totalLength, k);
      TokenReadsBack(Pid(txn.direction), ChunkSize(txn.totalLength, k), k + 1 == |c|,
                     control && ToggleAt(control, txn.direction, maxPacketSize, txn.totalLength, k));
    }
  }

  /** The cells while the descriptors of a transaction are written: those below index are done, the
      driver's links of the others are still those of the extra cells. */
  ghost predicate PartlyBuilt(xs0: seq<Transfer>, xs: seq<Transfer>, c: seq<int>, newDummy: int, t: int,
                              txn: Transaction, control: bool, maxPacketSize: nat, index: nat)
  {
    && |xs| == |xs0| && |c| == TransferCount(txn.totalLength) && newDummy >= NIL && NoDup(c) && index <= |c|
    && (forall k :: 0 <= k < |c| ==> 0 <= c[k] < |xs|)
    && (forall k :: 0 <= k < index ==> xs[c[k]] == DescriptorAt(c, newDummy, t, txn, control, maxPacketSize, k))
    && (forall k :: 1 <= k < |c| && index <= k ==> xs[c[k]].nextTransfer == if k + 1 < |c| then c[k + 1] else NIL)
    && (forall x :: 0 <= x < |xs| && x !in c ==> xs[x] == xs0[x])
  }

  lemma NothingBuilt(xs: seq<Transfer>, head: int, c: seq<int>, newDummy: int, t: int, txn: Transaction,
                     control: bool, maxPacketSize: nat)
    requires |c| == TransferCount(txn.totalLength) && newDummy >= NIL && NoDup(c)
    requires (forall k :: 0 <= k < |c| ==> 0 <= c[k] < |xs|) && Chain(NextTransfer(xs), head, c[1..], NIL)
    ensures PartlyBuilt(xs, xs, c, newDummy, t, txn, control, maxPacketSize, 0)
    ensures |c| > 1 ==> head == c[1]
  {
    forall k | 1 <= k < |c| ensures xs[c[k]].nextTransfer == if k + 1 < |c| then c[k + 1] else NIL {
      ChainLink(NextTransfer(xs), head, c[1..], NIL, k - 1);
    }
  }

  lemma PartlyNext(xs0: seq<Transfer>, xs: seq<Transfer>, c: seq<int>, newDummy: int, t: int, txn: Transaction,
                   control: bool, maxPacketSize: nat, index: nat)
    requires PartlyBuilt(xs0, xs, c, newDummy, t, txn, control, maxPacketSize, index) && index < |c|
    ensures 0 <= c[index] < |xs| && (index + 1 < |c| ==> c[index + 1] >= 0)
    ensures index > 0 && index + 1 < |c| ==> xs[c[index]].nextTransfer == c[index + 1]
  {
  }

  lemma PartlyStep(xs0: seq<Transfer>, xs: seq<Transfer>, c: seq<int>, newDummy: int, t: int, txn: Transaction,
                   control: bool, maxPacketSize: nat, index: nat)
    requires PartlyBuilt(xs0, xs, c, newDummy, t, txn, control, maxPacketSize, index) && index < |c|
    ensures |c| == TransferCount(txn.totalLength) && newDummy >= NIL && (forall i :: 0 <= i < |c| ==> 0 <= c[i] < |xs|)
    ensures PartlyBuilt(xs0, xs[c[index] := DescriptorAt(c, newDummy, t, txn, control, maxPacketSize, index)], c,
                        newDummy, t, txn, control, maxPacketSize, index + 1)
  {
    hide DescriptorAt, TransferCount;
    var xs' := xs[c[index] := DescriptorAt(c, newDummy, t, txn, control, maxPacketSize, index)];
    forall k | 0 <= k < |c| && k != index ensures xs'[c[k]] == xs[c[k]] { assert c[k] != c[index]; }
    forall x | 0 <= x < |xs| && x !in c ensures xs'[x] == xs[x] { assert c[index] in c; }
  }

  lemma AllBuilt(xs0: seq<Transfer>, xs: seq<Transfer>, c: seq<int>, newDummy: int, t: int, txn: Transaction,
                 control: bool, maxPacketSize: nat)
    requires PartlyBuilt(xs0, xs, c, newDummy, t, txn, control, maxPacketSize, |c|)
    ensures |c| == TransferCount(txn.totalLength) && newDummy >= NIL && |xs| == |xs0|
    ensures forall k :: 0 <= k < |c| ==> 0 <= c[k] < |xs|
    ensures forall k :: 0 <= k < |c| ==> xs[c[k]] == DescriptorAt(c, newDummy, t, txn, control, maxPacketSize, k)
    ensures forall x :: 0 <= x < |xs| && x !in c ==> xs[x] == xs0[x]
  {
  }

  /** The verdict on a transaction's descriptors as they stand in memory. */
  function JudgeCells(xs: seq<Transfer>, c: seq<int>): Verdict
  {
    if forall i :: 0 <= i < |c| ==> 0 <= c[i] < |xs| then Judge(Gather(xs, c)) else Pending
  }

  /** The verdict follows from the last descriptor of the transaction that has retired, the p-th. */
  lemma JudgedFrom(xs: seq<Transfer>, c: seq<int>) returns (p: nat)
    requires JudgeCells(xs, c).Done?
    ensures 0 < p <= |c| && forall i :: 0 <= i < |c| ==> 0 <= c[i] < |xs|
    ensures RetiredTo(Gather(xs, c), p) && StandsFor(JudgeCells(xs, c).status, xs[c[p - 1]].token)
  {
    hide Judge, RetiredTo, StandsFor;
    p := RetiredCount(Gather(xs, c));
    RetiredToIs(Gather(xs, c));
    VerdictIs(Gather(xs, c), p);
  }

  /** The cells cs are the first ones taken from the free list of v0, initialised and chained from head to
      tail; no cell in use changed. */
  ghost predicate ExtrasOf(v0: View, xs0: seq<Transfer>, v: View, xs: seq<Transfer>, head: int, tail: int, cs: seq<int>)
  {
    && |v0.owner| == |xs0| == |xs| && |cs| <= |v0.free|
    && cs == v0.free[..|cs|] && NoDup(cs) && Chain(NextTransfer(xs), head, cs, NIL)
    && (cs == [] <==> head == NIL) && tail == (if cs == [] then NIL else cs[|cs| - 1])
    && (forall k :: 0 <= k < |cs| ==> 0 <= cs[k] < |xs| && v0.owner[cs[k]] == Free && xs[cs[k]].token == 0)
    && v == v0.(owner := Marked(v0.owner, cs, Loose), free := v0.free[|cs|..])
    && (forall x :: 0 <= x < |xs| && InUse(v0.owner[x]) ==> xs[x] == xs0[x])
  }

  /** The extra cells and the next free cell, the new dummy, are in hand. */
  ghost predicate Ready(v0: View, xs0: seq<Transfer>, v: View, xs: seq<Transfer>, head: int, tail: int, cs: seq<int>,
                        newDummy: int)
  {
    && |v0.owner| == |xs0| == |xs| && |cs| + 1 <= |v0.free| && cs == v0.free[..|cs|] && newDummy == v0.free[|cs|]
    && NoDup(cs) && newDummy !in cs && Chain(NextTransfer(xs), head, cs, NIL)
    && head == (if cs == [] then NIL else cs[0]) && tail == (if cs == [] then NIL else cs[|cs| - 1])
    && (forall k :: 0 <= k < |cs| ==> 0 <= cs[k] < |xs| && v0.owner[cs[k]] == Free && xs[cs[k]].token == 0)
    && 0 <= newDummy < |xs| && v0.owner[newDummy] == Free && xs[newDummy] == Blank(true)
    && v == v0.(owner := Marked(v0.owner, cs, Loose)[newDummy := Loose], free := v0.free[|cs| + 1..])
    && (forall x :: 0 <= x < |xs| && InUse(v0.owner[x]) ==> xs[x] == xs0[x])
  }

  lemma ReadyIs(v0: View, xs0: seq<Transfer>, v: View, xs: seq<Transfer>, head: int, tail: int, cs: seq<int>, x: int)
    requires ExtrasOf(v0, xs0, v, xs, head, tail, cs)
    requires v.free != [] && x == v.free[0] && 0 <= x < |xs| && x < |v.owner| && v.owner[x] == Free
    ensures Ready(v0, xs0, v.(owner := v.owner[x := Loose], free := v.free[1..]), xs[x := Blank(true)], head, tail,
                  cs, x)
  {
    assert v0.free[|cs|..][1..] == v0.free[|cs| + 1..];
    MarkedFree(v0.owner, cs, x);
    ChainFrame(NextTransfer(xs), NextTransfer(xs[x := Blank(true)]), head, cs, NIL);
  }

  lemma MarkedFree(owner: seq<Owner>, cs: seq<int>, x: int)
    requires 0 <= x < |owner| && Marked(owner, cs, Loose)[x] == Free
    ensures x !in cs && owner[x] == Free
  {
  }

  /** The cells in hand are what a submission needs. */
  lemma CanAppendReady(m: Memory, v0: View, xs0: seq<Transfer>, v: View, e: int, t: int, head: int, tail: int,
                       cs: seq<int>, newDummy: int, txn: Transaction)
    requires Shape(m, v) && Ready(v0, xs0, v, m.xs, head, tail, cs, newDummy)
    requires 0 <= e < |m.eps| && v.use[e] == Listed && 0 <= t < |m.txns| && v.chain[t] == [] && v.home[t] == NIL
    requires |cs| + 1 == TransferCount(txn.totalLength) && txn.next == NIL
    requires txn.first == m.eps[e].dummyTransfer && txn.last == if tail != NIL then tail else txn.first
    ensures CanAppend(m, v, e, t, cs, newDummy, txn) && Chain(NextTransfer(m.xs), head, cs, NIL)
  {
    assert cs != [] ==> ([txn.first] + cs)[|cs|] == cs[|cs| - 1];
  }

  /** The owners after the submission of cells in hand, in terms of those before it. */
  lemma SettledQueued(v0: View, xs0: seq<Transfer>, v: View, xs: seq<Transfer>, e: int, t: int, first: int,
                      head: int, tail: int, cs: seq<int>, newDummy: int)
    requires Ready(v0, xs0, v, xs, head, tail, cs, newDummy) && Settled(v0)
    requires 0 <= e < |v.queue| && 0 <= t < |v.chain| && t < |v.home|
    ensures Settled(AppendedView(v, e, t, [first] + cs, Claimed(v.owner, [first] + cs, t, newDummy, e)))
  {
  }

  lemma CleanReady(v0: View, xs0: seq<Transfer>, v: View, xs: seq<Transfer>, e: int, t: int, first: int,
                   head: int, tail: int, cs: seq<int>, newDummy: int)
    requires Ready(v0, xs0, v, xs, head, tail, cs, newDummy) && Settled(v0)
    requires 0 <= first < |v0.owner| && v0.owner[first] == Dummy(e)
    requires forall x :: 0 <= x < |v0.owner| ==> v0.owner[x] != Chained(t)
    ensures AsyncSchedule.CleanOwners(v0.owner, e, t, first, cs, newDummy)
    ensures v.owner == Marked(v0.owner, cs, Loose)[newDummy := Loose] && v == v0.(owner := v.owner, free := v.free)
    ensures head == if cs == [] then NIL else cs[0]
  {
  }

  /** The cells after cell x, just taken, is chained behind the tail. */
  function Grown(xs: seq<Transfer>, head: int, tail: int, x: int): seq<Transfer>
    requires 0 <= x < |xs| && (head != NIL ==> 0 <= tail < |xs|)
  {
    var xs1 := xs[x := Blank(true)];
    if head == NIL then xs1 else xs1[tail := xs1[tail].(nextTransfer := x)]
  }

  lemma GrownChain(xs: seq<Transfer>, head: int, tail: int, cs: seq<int>, x: int)
    requires Chain(NextTransfer(xs), head, cs, NIL) && NoDup(cs) && x !in cs && 0 <= x < |xs|
    requires (cs == [] <==> head == NIL) && tail == (if cs == [] then NIL else cs[|cs| - 1])
    requires forall k :: 0 <= k < |cs| ==> 0 <= cs[k] < |xs|
    ensures Chain(NextTransfer(Grown(xs, head, tail, x)), if head == NIL then x else head, cs + [x], NIL)
  {
    var next := NextTransfer(xs);
    var next' := NextTransfer(Grown(xs, head, tail, x));
    if head == NIL {
      assert [x][1..] == [];
    } else {
      assert next' == next[x := NIL][tail := x];
      ChainAppend(next, head, cs, x);
    }
  }

  lemma ExtrasGrow(v0: View, xs0: seq<Transfer>, v: View, xs: seq<Transfer>, head: int, tail: int, cs: seq<int>, x: int)
    requires ExtrasOf(v0, xs0, v, xs, head, tail, cs)
    requires v.free != [] && x == v.free[0] && 0 <= x < |xs| && x < |v.owner| && v.owner[x] == Free
    ensures head != NIL ==> 0 <= tail < |xs| && tail < |v.owner| && v.owner[tail] == Loose && tail != x
    ensures ExtrasOf(v0, xs0, v.(owner := v.owner[x := Loose], free := v.free[1..]), Grown(xs, head, tail, x),
                     if head == NIL then x else head, x, cs + [x])
  {
    hide Chain, NextTransfer;
    GrownChain(xs, head, tail, cs, x);
    MarkMore(v0.owner, cs, x, Loose);
    assert v0.free[|cs|..][1..] == v0.free[|cs + [x]|..];
  }

  // ---------------------------------------------------------------- completion

  const NO_ACTION: nat := 0

  /** What the client of a transaction is told: nothing without a completion action. */
  function Report(t: int, txn: Transaction, status: IOStatus, remainder: nat): seq<Completion>
  {
    if txn.completion == NO_ACTION then [] else [Completion(t, txn.completion, status, remainder)]
  }

  /** The verdict on every transaction, from the tokens as they stand. */
  function Verdicts(xs: seq<Transfer>, chain: seq<seq<int>>): (ds: seq<Verdict>)
    ensures |ds| == |chain|
  {
    seq(|chain|, t requires 0 <= t < |chain| => JudgeCells(xs, chain[t]))
  }

  predicate Finished(ds: seq<Verdict>, t: int) { 0 <= t < |ds| && ds[t].Done? }

  /** What the finished transactions at the front of a queue report, in submission order. */
  function Delivered(ds: seq<Verdict>, txns: seq<Transaction>, q: seq<int>): seq<Completion>
    requires |ds| == |txns|
  {
    if q == [] || !Finished(ds, q[0]) then []
    else Report(q[0], txns[q[0]], ds[q[0]].status, ds[q[0]].remainder) + Delivered(ds, txns, q[1..])
  }

  /** The queue without its finished front. */
  function Undone(ds: seq<Verdict>, q: seq<int>): seq<int>
  {
    if q == [] || !Finished(ds, q[0]) then q else Undone(ds, q[1..])
  }

  /** What all listed endpoints deliver, endpoint by endpoint. */
  function AllDelivered(ds: seq<Verdict>, txns: seq<Transaction>, queue: seq<seq<int>>,
                        listed: seq<int>): seq<Completion>
    requires |ds| == |txns|
  {
    if listed == [] then []
    else (if 0 <= listed[0] < |queue| then Delivered(ds, txns, queue[listed[0]]) else [])
         + AllDelivered(ds, txns, queue, listed[1..])
  }

  function TotalQueued(queue: seq<seq<int>>, listed: seq<int>): nat
  {
    if listed == [] then 0
    else (if 0 <= listed[0] < |queue| then |queue[listed[0]]| else 0) + TotalQueued(queue, listed[1..])
  }

  ghost predicate NothingDone(ds: seq<Verdict>, queue: seq<seq<int>>, listed: seq<int>)
  {
    forall i :: 0 <= i < |listed| && 0 <= listed[i] < |queue| && queue[listed[i]] != [] ==>
      !Finished(ds, queue[listed[i]][0])
  }

  lemma {:induction false} NothingDelivered(ds: seq<Verdict>, txns: seq<Transaction>, queue: seq<seq<int>>,
                                            listed: seq<int>)
    requires |ds| == |txns| && NothingDone(ds, queue, listed)
    ensures AllDelivered(ds, txns, queue, listed) == []
  {
    if listed != [] {
      assert forall i :: 0 <= i < |listed[1..]| ==> listed[1..][i] == listed[i + 1];
      NothingDelivered(ds, txns, queue, listed[1..]);
    }
  }

  lemma {:induction false} OthersDelivered(ds: seq<Verdict>, txns: seq<Transaction>, queue: seq<seq<int>>,
                                           listed: seq<int>,
                                           e: int, q: seq<int>)
    requires |ds| == |txns| && e !in listed && 0 <= e < |queue|
    ensures AllDelivered(ds, txns, queue[e := q], listed) == AllDelivered(ds, txns, queue, listed)
    ensures TotalQueued(queue[e := q], listed) == TotalQueued(queue, listed)
  {
    if listed != [] { OthersDelivered(ds, txns, queue, listed[1..], e, q); }
  }

  lemma UndoneFront(ds: seq<Verdict>, q: seq<int>)
    ensures q == [] || !Finished(ds, q[0]) ==> Undone(ds, q) == q
    ensures q != [] && Finished(ds, q[0]) ==> Undone(ds, q) == Undone(ds, q[1..])
  {
  }

  /** A queue is its finished front, each transaction of which is reported, and then the rest, which
      starts with a transaction that is not finished. */
  lemma {:induction false} FrontAndRest(ds: seq<Verdict>, txns: seq<Transaction>, q: seq<int>)
    requires |ds| == |txns| && forall i :: 0 <= i < |q| ==> 0 <= q[i] < |txns| && txns[q[i]].completion != NO_ACTION
    ensures |Undone(ds, q)| <= |q|
    ensures var n := |q| - |Undone(ds, q)|;
      && Undone(ds, q) == q[n..] && (n < |q| ==> !Finished(ds, q[n])) && |Delivered(ds, txns, q)| == n
      && (forall i :: 0 <= i < n ==>
            (Finished(ds, q[i]) && Delivered(ds, txns, q)[i]
             == Completion(q[i], txns[q[i]].completion, ds[q[i]].status, ds[q[i]].remainder)))
  {
    if q != [] && Finished(ds, q[0]) {
      FrontAndRest(ds, txns, q[1..]);
      var m := |q[1..]| - |Undone(ds, q[1..])|;
      assert q[1..][m..] == q[m + 1..];
      var d, d' := Delivered(ds, txns, q), Delivered(ds, txns, q[1..]);
      assert d == Report(q[0], txns[q[0]], ds[q[0]].status, ds[q[0]].remainder) + d';
      forall i | 0 < i < m + 1 ensures q[i] == q[1..][i - 1] && i - 1 < |d'| && i < |d| && d[i] == d'[i - 1] {}
    }
  }

  /** The status reported for a transaction stands for the token of its last descriptor that has retired, the
      p-th. */
  lemma DeliveredFrom(xs: seq<Transfer>, chain: seq<seq<int>>, txns: seq<Transaction>, q: seq<int>, i: nat)
    returns (p: nat)
    requires |chain| == |txns| && i < |Delivered(Verdicts(xs, chain), txns, q)|
    requires forall k :: 0 <= k < |q| ==> 0 <= q[k] < |txns| && txns[q[k]].completion != NO_ACTION
    ensures i < |q| && var c := chain[q[i]];
      && 0 < p <= |c| && (forall k :: 0 <= k < |c| ==> 0 <= c[k] < |xs|) && RetiredTo(Gather(xs, c), p)
      && StandsFor(Delivered(Verdicts(xs, chain), txns, q)[i].status, xs[c[p - 1]].token)
  {
    hide JudgeCells, RetiredTo, StandsFor, Delivered, Undone, Gather;
    FrontAndRest(Verdicts(xs, chain), txns, q);
    p := JudgedFrom(xs, chain[q[i]]);
  }

  /** Completing the first finished head takes the first report off what is still to be delivered. */
  lemma {:induction false} DeliverOne(ds: seq<Verdict>, txns: seq<Transaction>, queue: seq<seq<int>>,
                                      listed: seq<int>, i: nat)
    requires |ds| == |txns| && i < |listed| && NoDup(listed) && NothingDone(ds, queue, listed[..i])
    requires forall j :: 0 <= j < |listed| ==> 0 <= listed[j] < |queue|
    requires queue[listed[i]] != [] && Finished(ds, queue[listed[i]][0])
    ensures var q := queue[listed[i]]; var t := q[0]; var queue' := queue[listed[i] := q[1..]];
      && AllDelivered(ds, txns, queue, listed)
         == Report(t, txns[t], ds[t].status, ds[t].remainder) + AllDelivered(ds, txns, queue', listed)
      && TotalQueued(queue', listed) < TotalQueued(queue, listed)
    decreases i
  {
    hide Delivered, Report;
    var e := listed[i];
    var q := queue[e];
    var queue' := queue[e := q[1..]];
    var rest := listed[1..];
    var r := Report(q[0], txns[q[0]], ds[q[0]].status, ds[q[0]].remainder);
    Rest(ds, queue, listed, i);
    if i == 0 {
      OthersDelivered(ds, txns, queue, rest, e, q[1..]);
      DeliveredFront(ds, txns, q);
      assert (r + Delivered(ds, txns, q[1..])) + AllDelivered(ds, txns, queue, rest)
        == r + (Delivered(ds, txns, q[1..]) + AllDelivered(ds, txns, queue, rest));
    } else {
      DeliverOne(ds, txns, queue, rest, i - 1);
      DeliveredFront(ds, txns, queue[listed[0]]);
    }
  }

  lemma DeliveredFront(ds: seq<Verdict>, txns: seq<Transaction>, q: seq<int>)
    requires |ds| == |txns|
    ensures q == [] || !Finished(ds, q[0]) ==> Delivered(ds, txns, q) == []
    ensures q != [] && Finished(ds, q[0]) ==>
      Delivered(ds, txns, q)
        == Report(q[0], txns[q[0]], ds[q[0]].status, ds[q[0]].remainder) + Delivered(ds, txns, q[1..])
  {
  }

  lemma Rest(ds: seq<Verdict>, queue: seq<seq<int>>, listed: seq<int>, i: nat)
    requires i < |listed| && NoDup(listed) && NothingDone(ds, queue, listed[..i])
    requires forall j :: 0 <= j < |listed| ==> 0 <= listed[j] < |queue|
    ensures listed[0] !in listed[1..] && NoDup(listed[1..])
    ensures forall j :: 0 <= j < |listed[1..]| ==> 0 <= listed[1..][j] < |queue|
    ensures i > 0 ==> listed[1..][i - 1] == listed[i] != listed[0] && NothingDone(ds, queue, listed[1..][..i - 1])
    ensures i > 0 && queue[listed[0]] != [] ==> !Finished(ds, queue[listed[0]][0])
  {
    hide Finished;
    var rest := listed[1..];
    if i > 0 {
      var some, fewer := listed[..i], rest[..i - 1];
      assert some[0] == listed[0];
      assert forall j :: 0 <= j < |fewer| ==> fewer[j] == some[j + 1];
    }
  }

  /** The view after detached transaction t and its descriptors are freed. */
  function ReleasedView(v: View, t: int): View
    requires 0 <= t < |v.chain|
  {
    v.(chain := v.chain[t := []], owner := Freed(v.owner, t), free := Reversed(v.chain[t]) + v.free)
  }

  /** The view after detached transactions ts are freed in order. */
  function ReleasedAll(v: View, ts: seq<int>): (v': View)
    requires forall i :: 0 <= i < |ts| ==> 0 <= ts[i] < |v.chain|
    ensures |v'.chain| == |v.chain|
  {
    if ts == [] then v
    else
      var k := |ts| - 1;
      assert forall i :: 0 <= i < k ==> ts[..k][i] == ts[i];
      ReleasedView(ReleasedAll(v, ts[..k]), ts[k])
  }

  lemma {:induction false} ReleasedFacts(v: View, ts: seq<int>)
    requires forall i :: 0 <= i < |ts| ==> 0 <= ts[i] < |v.chain|
    ensures var v' := ReleasedAll(v, ts);
      && v' == v.(owner := v'.owner, free := v'.free, chain := v'.chain) && |v'.owner| == |v.owner|
      && (forall t :: 0 <= t < |v.chain| ==> v'.chain[t] == if t in ts then [] else v.chain[t])
      && (forall x :: 0 <= x < |v.owner| ==>
            v'.owner[x] == if v.owner[x].Chained? && v.owner[x].transaction in ts then Free else v.owner[x])
    decreases |ts|
  {
    if ts != [] {
      var k := |ts| - 1;
      ReleasedFacts(v, ts[..k]);
      assert ts == ts[..k] + [ts[k]];
    }
  }

  /** What aborting a queue reports: every transaction once, in submission order, nothing transferred. */
  function Abortions(txns: seq<Transaction>, q: seq<int>, status: IOStatus): seq<Completion>
  {
    if q == [] then []
    else
      var k := |q| - 1;
      Abortions(txns, q[..k], status)
      + if 0 <= q[k] < |txns| then Report(q[k], txns[q[k]], status, txns[q[k]].totalLength) else []
  }

  /** An abort reports every transaction of the queue, in submission order, with its whole length left over. */
  lemma {:induction false} AbortionsAre(txns: seq<Transaction>, q: seq<int>, status: IOStatus)
    requires forall i :: 0 <= i < |q| ==> 0 <= q[i] < |txns| && txns[q[i]].completion != NO_ACTION
    ensures |Abortions(txns, q, status)| == |q|
    ensures forall i :: 0 <= i < |q| ==>
      Abortions(txns, q, status)[i]
      == Completion(q[i], txns[q[i]].completion, status, txns[q[i]].totalLength)
  {
    if q != [] { AbortionsAre(txns, q[..|q| - 1], status); }
  }

  // ---------------------------------------------------------------- where completion leaves the controller

  predicate NeedsRepair(ds: seq<Verdict>, t: int) { 0 <= t < |ds| && ds[t].Done? && ds[t].repairQueue }

  /** The cell at the front of a queue once n of its transactions are gone. */
  function FrontCell(m: Memory, v: View, e: int, n: nat): int
    requires Shape(m, v) && 0 <= e < |m.eps|
  {
    if n < |v.queue[e]| && 0 <= v.queue[e][n] < |m.txns| then m.txns[v.queue[e][n]].first else m.eps[e].dummyTransfer
  }

  /** The link that completing the first n transactions of a queue leaves in the overlay: each that needs
      repair and the last of the queue set it to what is at the front then. */
  function LinkAfter(ds: seq<Verdict>, m: Memory, v: View, e: int, n: nat): nat
    requires Shape(m, v) && 0 <= e < |m.eps|
  {
    if n == 0 || n > |v.queue[e]| then m.eps[e].overlay.nextQTD
    else if NeedsRepair(ds, v.queue[e][n - 1]) || n == |v.queue[e]| then
      var x := FrontCell(m, v, e, n); if x >= NIL then QtdPhys(x) else TERMINATE
    else LinkAfter(ds, m, v, e, n - 1)
  }

  /** Of endpoint e's queue the first transactions, all finished, have been completed. */
  ghost predicate Shortened(ds: seq<Verdict>, m0: Memory, v0: View, m: Memory, v: View, e: int)
    requires Shape(m0, v0) && Shape(m, v) && 0 <= e < |m0.eps| == |m.eps|
  {
    var q := v0.queue[e];
    var n := |q| - |v.queue[e]|;
    && n >= 0 && v.queue[e] == q[n..] && m.eps[e].dummyTransfer == m0.eps[e].dummyTransfer
    && (forall k :: 0 <= k < n ==> Finished(ds, q[k]) && 0 <= q[k] < |v.home| && v.home[q[k]] == NIL)
    && m.eps[e].overlay.nextQTD == LinkAfter(ds, m0, v0, e, n)
  }

  /** Since (m0, v0) nothing has happened but completions of finished transactions. */
  ghost predicate Drained(ds: seq<Verdict>, m0: Memory, v0: View, m: Memory, v: View)
  {
    && Shape(m0, v0) && Shape(m, v) && |m.eps| == |m0.eps| && |m.xs| == |m0.xs| && m.txns == m0.txns && v.use == v0.use
    && (forall t :: 0 <= t < |v0.home| && v.home[t] != NIL ==> v.home[t] == v0.home[t] && v.chain[t] == v0.chain[t])
    && (forall x :: 0 <= x < |v0.owner| ==> v.owner[x] == if Gone(v0, v, x) then Free else v0.owner[x])
    && (forall x :: 0 <= x < |v0.owner| && !Gone(v0, v, x) ==> m.xs[x] == m0.xs[x])
    && (forall e :: 0 <= e < |m0.eps| && v0.use[e] == Listed ==> Shortened(ds, m0, v0, m, v, e))
  }

  /** Cell x belonged to a transaction that has been completed. */
  predicate Gone(v0: View, v: View, x: int)
  {
    0 <= x < |v0.owner| && v0.owner[x].Chained? && 0 <= v0.owner[x].transaction < |v.home|
    && v.home[v0.owner[x].transaction] == NIL
  }

  lemma DrainStarts(ds: seq<Verdict>, m: Memory, v: View)
    requires Ok(m, v) && Settled(v)
    ensures Drained(ds, m, v, m, v)
  {
    hide FreeOk, ListOk, RingOk, KeysOk, QueuesOk;
    forall x | 0 <= x < |v.owner| ensures !Gone(v, v, x) {
      if v.owner[x].Chained? { assert v.chain[v.owner[x].transaction] != []; }
    }
  }

  /** The next transaction of endpoint e's queue, finished, has been completed. */
  ghost predicate CompletedNext(ds: seq<Verdict>, m1: Memory, v1: View, m: Memory, v: View, e: int)
    requires Shape(m1, v1) && Shape(m, v)
  {
    && 0 <= e < |m1.eps| == |m.eps| && v1.use[e] == Listed
    && v1.queue[e] != [] && Finished(ds, v1.queue[e][0]) && 0 <= v1.queue[e][0] < |v1.chain|
    && m.txns == m1.txns && |m.xs| == |m1.xs| && m.eps[e].dummyTransfer == m1.eps[e].dummyTransfer
    && (var t := v1.queue[e][0];
        v == ReleasedView(v1.(queue := v1.queue[e := v1.queue[e][1..]], home := v1.home[t := NIL]), t))
    && (forall f :: 0 <= f < |m1.eps| && f != e ==> m.eps[f] == m1.eps[f])
    && (forall x :: 0 <= x < |m1.xs| && v1.owner[x] != Chained(v1.queue[e][0]) ==> m.xs[x] == m1.xs[x])
    && if NeedsRepair(ds, v1.queue[e][0]) || |v1.queue[e]| == 1
       then FrontCell(m, v, e, 0) >= NIL && m.eps[e].overlay.nextQTD == QtdPhys(FrontCell(m, v, e, 0))
       else m.eps[e].overlay == m1.eps[e].overlay
  }

  /** Completing the next transaction of a queue. */
  lemma DrainStep(ds: seq<Verdict>, m0: Memory, v0: View, m1: Memory, v1: View, m: Memory, v: View, e: int)
    requires Ok(m1, v1) && Ok(m, v) && Drained(ds, m0, v0, m1, v1) && CompletedNext(ds, m1, v1, m, v, e)
    ensures Drained(ds, m0, v0, m, v)
  {
    hide FreeOk, ChainsOk, ListOk, RingOk, KeysOk, Reversed, Shortened, FrontCell, NeedsRepair, Finished, Gone, Freed;
    var t := v1.queue[e][0];
    assert QueueOk(m1, v1, e);
    assert v1.home[t] == e;
    forall x | 0 <= x < |v0.owner|
      ensures v.owner[x] == if Gone(v0, v, x) then Free else v0.owner[x]
      ensures !Gone(v0, v, x) ==> m.xs[x] == m0.xs[x]
    {
      DrainCell(v0, v1, v, t, x);
    }
    DrainQueues(ds, m0, v0, m1, v1, m, v, e);
  }

  lemma DrainCell(v0: View, v1: View, v: View, t: int, x: int)
    requires 0 <= x < |v0.owner| == |v1.owner| && v1.owner[x] == (if Gone(v0, v1, x) then Free else v0.owner[x])
    requires 0 <= t < |v1.home| && v1.home[t] != NIL && v.home == v1.home[t := NIL] && v.owner == Freed(v1.owner, t)
    ensures |v.owner| == |v1.owner| && v.owner[x] == if Gone(v0, v, x) then Free else v0.owner[x]
    ensures !Gone(v0, v, x) ==> !Gone(v0, v1, x) && v1.owner[x] != Chained(t)
  {
  }

  lemma DrainQueues(ds: seq<Verdict>, m0: Memory, v0: View, m1: Memory, v1: View, m: Memory, v: View, e: int)
    requires Shape(m1, v1) && Shape(m, v) && Drained(ds, m0, v0, m1, v1) && CompletedNext(ds, m1, v1, m, v, e)
    ensures forall f :: 0 <= f < |m0.eps| && v0.use[f] == Listed ==> Shortened(ds, m0, v0, m, v, f)
  {
    hide Reversed, Shortened, FrontCell, NeedsRepair, Finished;
    forall f | 0 <= f < |m0.eps| && v0.use[f] == Listed ensures Shortened(ds, m0, v0, m, v, f) {
      assert Shortened(ds, m0, v0, m1, v1, f);
      if f == e {
        ShortenedMore(ds, m0, v0, m1, v1, m, v, e);
      } else {
        ShortenedSame(ds, m0, v0, m1, v1, m, v, f);
      }
    }
  }

  lemma ShortenedMore(ds: seq<Verdict>, m0: Memory, v0: View, m1: Memory, v1: View, m: Memory, v: View, e: int)
    requires Shape(m0, v0) && Shape(m1, v1) && Shape(m, v) && 0 <= e < |m0.eps| == |m1.eps| == |m.eps|
    requires Shortened(ds, m0, v0, m1, v1, e) && v1.queue[e] != [] && Finished(ds, v1.queue[e][0])
    requires 0 <= v1.queue[e][0] < |v1.home| && v.home == v1.home[v1.queue[e][0] := NIL]
    requires v.queue == v1.queue[e := v1.queue[e][1..]]
    requires m.txns == m1.txns == m0.txns && m.eps[e].dummyTransfer == m1.eps[e].dummyTransfer
    requires if NeedsRepair(ds, v1.queue[e][0]) || |v1.queue[e]| == 1
             then FrontCell(m, v, e, 0) >= NIL && m.eps[e].overlay.nextQTD == QtdPhys(FrontCell(m, v, e, 0))
             else m.eps[e].overlay == m1.eps[e].overlay
    ensures Shortened(ds, m0, v0, m, v, e)
  {
    var q := v0.queue[e];
    var n := |q| - |v1.queue[e]|;
    assert v.queue[e] == q[n + 1..];
    assert FrontCell(m, v, e, 0) == FrontCell(m0, v0, e, n + 1);
  }

  lemma ShortenedSame(ds: seq<Verdict>, m0: Memory, v0: View, m1: Memory, v1: View, m: Memory, v: View, f: int)
    requires Shape(m0, v0) && Shape(m1, v1) && Shape(m, v) && 0 <= f < |m0.eps| == |m1.eps| == |m.eps|
    requires Shortened(ds, m0, v0, m1, v1, f) && m.eps[f] == m1.eps[f] && v.queue[f] == v1.queue[f]
    requires |v.home| == |v1.home| && forall t :: 0 <= t < |v.home| && v1.home[t] == NIL ==> v.home[t] == NIL
    ensures Shortened(ds, m0, v0, m, v, f)
  {
  }

  // What the completions so far mean for the controller.

  /** The descriptor the controller will fetch next is free. */
  ghost predicate AtFree(m: Memory, v: View, e: int)
    requires Shape(m, v) && 0 <= e < |m.eps|
  {
    var x := QtdAt(m.eps[e].overlay.nextQTD); 0 <= x < |v.owner| && v.owner[x] == Free
  }

  /** Of the n transactions of a queue that are completed the last does not need repair, and something is
      left; and one before it does, or the descriptor to fetch next was one of theirs. */
  ghost predicate Strands(ds: seq<Verdict>, chain: seq<seq<int>>, q: seq<int>, n: int, next: int)
  {
    && 0 < n < |q| && !NeedsRepair(ds, q[n - 1])
    && ((exists k :: 0 <= k < n - 1 && NeedsRepair(ds, q[k])) || next in Flat(chain, q[..n]))
  }

  ghost predicate NoRepairs(ds: seq<Verdict>, q: seq<int>, n: int)
    requires n <= |q|
  {
    forall k :: 0 <= k < n ==> !NeedsRepair(ds, q[k])
  }

  /** All of the queue is completed, or none of the n needs repair and the controller had its place, or the
      last does and no descriptor that is left has retired. */
  ghost predicate LeavesPlace(ds: seq<Verdict>, xs: seq<Transfer>, chain: seq<seq<int>>, q: seq<int>, n: int,
                              placed: bool)
  {
    0 <= n <= |q|
    && ((n == |q| && n > 0) || (NoRepairs(ds, q, n) && placed)
        || (n > 0 && NeedsRepair(ds, q[n - 1]) && NoneRetired(xs, chain, q[n..])))
  }

  lemma {:induction false} LinkUnrepaired(ds: seq<Verdict>, m: Memory, v: View, e: int, n: nat)
    requires Shape(m, v) && 0 <= e < |m.eps| && n <= |v.queue[e]| && (n == 0 || n < |v.queue[e]|)
    requires forall k :: 0 <= k < n ==> !NeedsRepair(ds, v.queue[e][k])
    ensures LinkAfter(ds, m, v, e, n) == m.eps[e].overlay.nextQTD
  {
    hide NeedsRepair, FrontCell;
    if n > 0 { LinkUnrepaired(ds, m, v, e, n - 1); }
  }

  lemma {:induction false} LinkRepaired(ds: seq<Verdict>, m: Memory, v: View, e: int, n: nat, k: nat)
    requires Shape(m, v) && 0 <= e < |m.eps| && k < n < |v.queue[e]| && NeedsRepair(ds, v.queue[e][k])
    requires forall j :: k < j < n ==> !NeedsRepair(ds, v.queue[e][j])
    ensures LinkAfter(ds, m, v, e, n) == var x := FrontCell(m, v, e, k + 1); if x >= NIL then QtdPhys(x) else TERMINATE
  {
    hide NeedsRepair, FrontCell;
    if k + 1 < n { LinkRepaired(ds, m, v, e, n - 1, k); }
  }

  lemma {:induction false} FlatSplit(chain: seq<seq<int>>, q: seq<int>, n: nat)
    requires n <= |q|
    ensures Flat(chain, q) == Flat(chain, q[..n]) + Flat(chain, q[n..])
  {
    if n > 0 {
      FlatSplit(chain, q[1..], n - 1);
      assert q[..n][1..] == q[1..][..n - 1] && q[1..][n - 1..] == q[n..];
    } else {
      assert q[..0] == [] && q[0..] == q;
    }
  }

  /** The transactions left on a queue and their cells are as they were. */
  lemma LeftAsWere(ds: seq<Verdict>, m0: Memory, v0: View, m: Memory, v: View, e: int)
    requires Ok(m0, v0) && Ok(m, v) && Drained(ds, m0, v0, m, v) && 0 <= e < |m0.eps| && v0.use[e] == Listed
    ensures Flat(v.chain, v.queue[e]) == Flat(v0.chain, v.queue[e])
    ensures SameTokens(m0.xs, m.xs, Cells(m, v, e))
  {
    hide FreeOk, ChainsOk, ListOk, RingOk, KeysOk, Shortened, Active, Cells, Gone;
    assert QueueOk(m, v, e);
    var w := Cells(m, v, e);
    LeftChains(ds, m0, v0, m, v, e);
    CellsLinked(m, v, e);
    forall j | 0 <= j < |w| ensures m.xs[w[j]] == m0.xs[w[j]] {
      CellOwner(m, v, e, j);
      NotGone(v0, v, w[j]);
    }
  }

  lemma LeftChains(ds: seq<Verdict>, m0: Memory, v0: View, m: Memory, v: View, e: int)
    requires Ok(m, v) && Drained(ds, m0, v0, m, v) && 0 <= e < |m0.eps| && v0.use[e] == Listed
    ensures Flat(v.chain, v.queue[e]) == Flat(v0.chain, v.queue[e])
  {
    hide FreeOk, ChainsOk, ListOk, RingOk, KeysOk, Shortened, Gone;
    assert QueueOk(m, v, e);
    var q := v.queue[e];
    assert forall k :: 0 <= k < |q| ==> v.home[q[k]] == e;
    FlatSame(v0.chain, v.chain, q);
  }

  /** A cell that is in use is not one of a completed transaction. */
  lemma NotGone(v0: View, v: View, x: int)
    requires 0 <= x < |v.owner| == |v0.owner| && v.owner[x] == (if Gone(v0, v, x) then Free else v0.owner[x])
    requires v.owner[x] != Free
    ensures !Gone(v0, v, x) && v0.owner[x] == v.owner[x]
  {
  }

  lemma FrontRetired(ds: seq<Verdict>, m: Memory, v: View, q: seq<int>)
    requires Shape(m, v) && ds == Verdicts(m.xs, v.chain)
    requires forall k :: 0 <= k < |q| ==> Finished(ds, q[k]) && !NeedsRepair(ds, q[k])
    ensures var c := Flat(v.chain, q); forall k :: 0 <= k < |c| && 0 <= c[k] < |m.xs| ==> !Active(m.xs[c[k]].token)
  {
    hide Active, JudgeCells;
    var c := Flat(v.chain, q);
    forall k | 0 <= k < |c| && 0 <= c[k] < |m.xs| ensures !Active(m.xs[c[k]].token) {
      var j := FlatMember(v.chain, q, c[k]);
      AsyncSchedule.HeadRetired(m, v, q[j]);
    }
  }

  /** The cells of a queue are those of the completed transactions, all retired unless they needed repair,
      and those left. */
  lemma FrontAndLeft(ds: seq<Verdict>, m0: Memory, v0: View, m: Memory, v: View, e: int)
    requires Ok(m0, v0) && Ok(m, v) && Drained(ds, m0, v0, m, v) && 0 <= e < |m0.eps| && v0.use[e] == Listed
    requires ds == Verdicts(m0.xs, v0.chain) && |v.queue[e]| <= |v0.queue[e]|
    requires var n := |v0.queue[e]| - |v.queue[e]|;
      (n == 0 || n < |v0.queue[e]|) && NoRepairs(ds, v0.queue[e], n)
    ensures var n := |v0.queue[e]| - |v.queue[e]|; var c := Flat(v0.chain, v0.queue[e][..n]);
      && Cells(m0, v0, e) == c + Cells(m, v, e) && SameTokens(m0.xs, m.xs, Cells(m, v, e))
      && m.eps[e].overlay.nextQTD == m0.eps[e].overlay.nextQTD
      && forall k :: 0 <= k < |c| ==> 0 <= c[k] < |m0.xs| && !Active(m0.xs[c[k]].token)
  {
    hide FreeOk, ChainsOk, QueuesOk, ListOk, RingOk, KeysOk, Active, Flat, NeedsRepair, Gone, Verdicts, Finished;
    assert Shortened(ds, m0, v0, m, v, e);
    var q := v0.queue[e];
    var n := |q| - |v.queue[e]|;
    LinkUnrepaired(ds, m0, v0, e, n);
    LeftAsWere(ds, m0, v0, m, v, e);
    FlatSplit(v0.chain, q, n);
    assert forall k :: 0 <= k < n ==> q[..n][k] == q[k];
    FrontRetired(ds, m0, v0, q[..n]);
    CellsLinked(m0, v0, e);
    var c, w := Flat(v0.chain, q[..n]), Cells(m, v, e);
    assert Cells(m0, v0, e) == c + w;
    assert forall k :: 0 <= k < |c| ==> (c + w)[k] == c[k];
  }

  /** Without repair, and with something left, the controller keeps its place and gains none. */
  lemma FateKept(ds: seq<Verdict>, m0: Memory, v0: View, m: Memory, v: View, e: int)
    requires Ok(m0, v0) && Ok(m, v) && Drained(ds, m0, v0, m, v) && 0 <= e < |m0.eps| && v0.use[e] == Listed
    requires ds == Verdicts(m0.xs, v0.chain) && |v.queue[e]| <= |v0.queue[e]|
    requires var n := |v0.queue[e]| - |v.queue[e]|;
      (n == 0 || n < |v0.queue[e]|) && NoRepairs(ds, v0.queue[e], n)
    ensures HasPlace(m, v, e) <==> HasPlace(m0, v0, e)
  {
    hide Ok, Drained, Active, Flat, Cells, NoRepairs, Verdicts;
    DrainedParts(ds, m0, v0, m, v, e);
    FrontAndLeft(ds, m0, v0, m, v, e);
    var n := |v0.queue[e]| - |v.queue[e]|;
    var c, w := Flat(v0.chain, v0.queue[e][..n]), Cells(m, v, e);
    var link := m.eps[e].overlay.nextQTD;
    if HasPlace(m0, v0, e) {
      var i: nat :| Fetched(m0, v0, e, i);
      RemoveKeepsPlace(m0.xs, m.xs, link, c, w, i);
      assert Fetched(m, v, e, i - |c|);
    }
    if HasPlace(m, v, e) {
      var i: nat :| Fetched(m, v, e, i);
      assert FetchedAt(m.xs, link, w, i);
      InFront(m0.xs, m.xs, link, c, w, i);
      assert Fetched(m0, v0, e, |c| + i);
    }
  }

  lemma InFront(xs: seq<Transfer>, xs': seq<Transfer>, link: nat, c: seq<int>, w: seq<int>, i: nat)
    requires FetchedAt(xs', link, w, i) && SameTokens(xs, xs', w)
    requires forall k :: 0 <= k < |c| ==> 0 <= c[k] < |xs|
    ensures FetchedAt(xs, link, c + w, |c| + i)
  {
    hide Active;
  }

  /** Without repair the controller is at a free cell if it stood at one of the completed transactions, and
      stands where it stood otherwise. */
  lemma FateFreed(ds: seq<Verdict>, m0: Memory, v0: View, m: Memory, v: View, e: int)
    requires Ok(m0, v0) && Ok(m, v) && Drained(ds, m0, v0, m, v) && 0 <= e < |m0.eps| && v0.use[e] == Listed
    requires ds == Verdicts(m0.xs, v0.chain) && |v.queue[e]| <= |v0.queue[e]| && Stands(m0, v0, e)
    requires var n := |v0.queue[e]| - |v.queue[e]|;
      (n == 0 || n < |v0.queue[e]|) && NoRepairs(ds, v0.queue[e], n)
    ensures var n := |v0.queue[e]| - |v.queue[e]|;
      if QtdAt(m0.eps[e].overlay.nextQTD) in Flat(v0.chain, v0.queue[e][..n]) then AtFree(m, v, e)
      else Stands(m, v, e)
  {
    hide FreeOk, ChainsOk, QueuesOk, ListOk, RingOk, KeysOk, Active, Flat, Cells, NeedsRepair, Gone, Verdicts, Finished;
    FrontAndLeft(ds, m0, v0, m, v, e);
    var q, x := v0.queue[e], QtdAt(m0.eps[e].overlay.nextQTD);
    var n := |q| - |v.queue[e]|;
    if x in Flat(v0.chain, q[..n]) {
      var j := FlatMember(v0.chain, q[..n], x);
      assert Shortened(ds, m0, v0, m, v, e) && q[..n][j] == q[j];
      CellInChain(m0, v0, q[j], x);
      assert Gone(v0, v, x) by { IsGone(v0, v, x, q[j]); }
    }
  }

  lemma IsGone(v0: View, v: View, x: int, t: int)
    requires 0 <= x < |v0.owner| && v0.owner[x] == Chained(t) && 0 <= t < |v.home| && v.home[t] == NIL
    ensures Gone(v0, v, x)
  {
  }

  /** With nothing left the controller stands at the dummy. */
  lemma FateEmptied(ds: seq<Verdict>, m0: Memory, v0: View, m: Memory, v: View, e: int)
    requires Ok(m0, v0) && Ok(m, v) && Drained(ds, m0, v0, m, v) && 0 <= e < |m0.eps| && v0.use[e] == Listed
    requires v.queue[e] == [] && v0.queue[e] != []
    ensures HasPlace(m, v, e)
  {
    hide FreeOk, ChainsOk, QueuesOk, ListOk, RingOk, KeysOk, Active, NeedsRepair, Gone;
    assert Shortened(ds, m0, v0, m, v, e);
    OwnDummy(m, v, e);
    assert Fetched(m, v, e, 0);
  }

  lemma FrontCellIs(m: Memory, v: View, e: int, n: nat)
    requires Ok(m, v) && 0 <= e < |m.eps| && v.use[e] == Listed && n < |v.queue[e]|
    ensures 0 <= v.queue[e][n] < |v.chain| && v.chain[v.queue[e][n]] != [] && v.home[v.queue[e][n]] == e
    ensures var x := FrontCell(m, v, e, n);
      && x == v.chain[v.queue[e][n]][0] && 0 <= x < |m.xs| && v.owner[x] == Chained(v.queue[e][n])
  {
    hide FreeOk, ListOk, RingOk, KeysOk;
    assert QueueOk(m, v, e);
    assert ChainOk(m.xs, v.owner, v.queue[e][n], m.txns[v.queue[e][n]], v.chain[v.queue[e][n]]);
  }

  /** After repair of the last one completed the controller starts with what is left. */
  lemma FateRestarted(ds: seq<Verdict>, m0: Memory, v0: View, m: Memory, v: View, e: int)
    requires Ok(m0, v0) && Ok(m, v) && Drained(ds, m0, v0, m, v) && 0 <= e < |m0.eps| && v0.use[e] == Listed
    requires var n := |v0.queue[e]| - |v.queue[e]|; 0 < n < |v0.queue[e]| && NeedsRepair(ds, v0.queue[e][n - 1])
    ensures Stands(m, v, e) && (HasPlace(m, v, e) <==> NoneRetired(m0.xs, v0.chain, v.queue[e]))
  {
    hide FreeOk, ChainsOk, QueuesOk, ListOk, RingOk, KeysOk, Active, Flat, Gone;
    assert Shortened(ds, m0, v0, m, v, e);
    LeftAsWere(ds, m0, v0, m, v, e);
    FrontCellIs(m, v, e, 0);
    assert FrontCell(m, v, e, 0) == FrontCell(m0, v0, e, |v0.queue[e]| - |v.queue[e]|);
    FlatFront(v.chain, v.queue[e]);
    FrontPlacedIff(m, v, e);
    var w, f := Cells(m, v, e), Flat(v0.chain, v.queue[e]);
    assert forall j :: 0 <= j < |f| ==> w[j] == f[j];
  }

  lemma FlatFront(chain: seq<seq<int>>, q: seq<int>)
    requires q != [] && 0 <= q[0] < |chain| && chain[q[0]] != []
    ensures Flat(chain, q) != [] && Flat(chain, q)[0] == chain[q[0]][0]
  {
  }

  /** After an earlier repair, and completions without one behind it, the controller is at a free cell. */
  lemma FateStranded(ds: seq<Verdict>, m0: Memory, v0: View, m: Memory, v: View, e: int)
    requires Ok(m0, v0) && Ok(m, v) && Drained(ds, m0, v0, m, v) && 0 <= e < |m0.eps| && v0.use[e] == Listed
    requires var n := |v0.queue[e]| - |v.queue[e]|;
      0 < n < |v0.queue[e]| && !NeedsRepair(ds, v0.queue[e][n - 1]) && !NoRepairs(ds, v0.queue[e], n)
    ensures AtFree(m, v, e)
  {
    hide FreeOk, ChainsOk, QueuesOk, ListOk, RingOk, KeysOk, NeedsRepair, FrontCell, LinkAfter;
    assert Shortened(ds, m0, v0, m, v, e);
    var n := |v0.queue[e]| - |v.queue[e]|;
    var k := LastRepair(ds, v0.queue[e], n - 1);
    LinkRepaired(ds, m0, v0, e, n, k);
    FrontCellIs(m0, v0, e, k + 1);
    assert Gone(v0, v, FrontCell(m0, v0, e, k + 1));
  }

  lemma LastRepair(ds: seq<Verdict>, q: seq<int>, n: nat) returns (k: nat)
    requires n <= |q| && exists j :: 0 <= j < n && NeedsRepair(ds, q[j])
    ensures k < n && NeedsRepair(ds, q[k]) && forall j :: k < j < n ==> !NeedsRepair(ds, q[j])
  {
    if NeedsRepair(ds, q[n - 1]) {
      k := n - 1;
    } else {
      k := LastRepair(ds, q, n - 1);
    }
  }

  lemma PlaceNotFree(m: Memory, v: View, e: int)
    requires Ok(m, v) && 0 <= e < |m.eps| && v.use[e] == Listed
    ensures HasPlace(m, v, e) ==> Stands(m, v, e)
    ensures Stands(m, v, e) ==> !AtFree(m, v, e)
  {
    hide FreeOk, ChainsOk, QueuesOk, ListOk, RingOk, KeysOk, Stands, HasPlace;
    if HasPlace(m, v, e) { PlaceStands(m, v, e); }
    if Stands(m, v, e) { NeverFree(m, v, e); }
  }

  lemma DrainedParts(ds: seq<Verdict>, m0: Memory, v0: View, m: Memory, v: View, e: int)
    requires Ok(m0, v0) && Ok(m, v) && Drained(ds, m0, v0, m, v) && 0 <= e < |m0.eps| && v0.use[e] == Listed
    ensures Shape(m0, v0) && Shape(m, v) && |m.eps| == |m0.eps| && v.use == v0.use
    ensures |v.queue[e]| <= |v0.queue[e]| && v.queue[e] == v0.queue[e][|v0.queue[e]| - |v.queue[e]|..]
  {
    hide FreeOk, ChainsOk, QueuesOk, ListOk, RingOk, KeysOk, NeedsRepair, Finished, LinkAfter, Gone;
    assert Shortened(ds, m0, v0, m, v, e);
  }

  /** Completing transactions from the front of queues in which the controller stands leaves it, for each
      queue, standing there or at a free cell: that exactly if what was completed last needed no repair, something
      is left, and it stood at a completed descriptor or was put there by an earlier repair.  It is in its
      place exactly if nothing is left, or there was no repair and it was in its place, or nothing has retired
      behind the last one completed, which needed repair. */
  lemma Fates(ds: seq<Verdict>, m0: Memory, v0: View, m: Memory, v: View, e: int)
    requires Ok(m0, v0) && Ok(m, v) && Drained(ds, m0, v0, m, v) && 0 <= e < |m0.eps| && v0.use[e] == Listed
    requires ds == Verdicts(m0.xs, v0.chain) && Stands(m0, v0, e)
    ensures var q := v0.queue[e]; var n := |q| - |v.queue[e]|;
      && (AtFree(m, v, e) <==> Strands(ds, v0.chain, q, n, QtdAt(m0.eps[e].overlay.nextQTD)))
      && (Stands(m, v, e) <==> !AtFree(m, v, e))
      && (HasPlace(m, v, e) <==> LeavesPlace(ds, m0.xs, v0.chain, q, n, HasPlace(m0, v0, e)))
  {
    hide Ok, Drained, HasPlace, Stands, AtFree, NeedsRepair, NoneRetired, Verdicts, Flat;
    DrainedParts(ds, m0, v0, m, v, e);
    var q := v0.queue[e];
    var n := |q| - |v.queue[e]|;
    PlaceNotFree(m, v, e);
    if n == |q| && n > 0 {
      FateEmptied(ds, m0, v0, m, v, e);
    } else if NoRepairs(ds, q, n) {
      FateKept(ds, m0, v0, m, v, e);
      FateFreed(ds, m0, v0, m, v, e);
      assert n == 0 ==> Flat(v0.chain, q[..n]) == [] by { FlatNone(v0.chain, q); }
    } else if NeedsRepair(ds, q[n - 1]) {
      FateRestarted(ds, m0, v0, m, v, e);
    } else {
      FateStranded(ds, m0, v0, m, v, e);
    }
  }

  lemma FlatNone(chain: seq<seq<int>>, q: seq<int>)
    ensures Flat(chain, q[..0]) == []
  {
  }

  // ---------------------------------------------------------------- initialisation

  /** The cells 0, 1, ..., n - 1. */
  function Upto(n: nat): (xs: seq<int>)
    ensures |xs| == n
  {
    seq(n, i => i)
  }

  lemma {:induction false} UptoChain(next: seq<int>, n: nat, i: nat)
    requires i <= n <= |next| && forall k :: 0 <= k < n ==> next[k] == if k + 1 < n then k + 1 else NIL
    ensures Chain(next, if i < n then i else NIL, Upto(n)[i..], NIL)
    decreases n - i
  {
    if i < n {
      UptoChain(next, n, i + 1);
      assert Upto(n)[i..][1..] == Upto(n)[i + 1..];
    }
  }

  /** The first n cells free, the others outside the pool's reach. */
  function FirstFree(n: nat): (owner: seq<Owner>)
    ensures |owner| == TRANSFER_COUNT
  {
    seq(TRANSFER_COUNT, x => if x < n then Free else Outside)
  }

  function InitialView(linked: nat): View
  {
    View(FirstFree(linked), Upto(linked), [], [], seq(ENDPOINT_COUNT, e => []), seq(ENDPOINT_COUNT, e => Idle), [],
         Upto(ENDPOINT_COUNT))
  }

  lemma InitialOk(m: Memory, linked: nat)
    requires 1 <= linked <= TRANSFER_COUNT == |m.xs| && ENDPOINT_COUNT == |m.eps| && m.txns == []
    requires m.freeXfer == 0 && m.freeEp == 0 && m.epHead == NIL && m.headNextQH == QhLink(NIL)
    requires forall x :: 0 <= x < |m.xs| ==> m.xs[x].nextFree == if x + 1 < linked then x + 1 else NIL
    requires forall e :: 0 <= e < |m.eps| ==> m.eps[e].nextEndpoint == if e + 1 < ENDPOINT_COUNT then e + 1 else NIL
    ensures Ok(m, InitialView(linked)) && Settled(InitialView(linked))
  {
    hide FreeOk, ListOf, Upto;
    var v := InitialView(linked);
    UptoChain(NextFree(m.xs), linked, 0);
    UptoChain(NextEndpoint(m.eps), ENDPOINT_COUNT, 0);
    InitialPool(m.xs, linked);
    InitialIdle(NextEndpoint(m.eps), v.use);
    InitialListed(NextEndpoint(m.eps), v.use);
  }

  lemma InitialPool(xs: seq<Transfer>, linked: nat)
    requires 1 <= linked <= TRANSFER_COUNT == |xs| && Chain(NextFree(xs), 0, Upto(linked)[0..], NIL)
    ensures FreeOk(xs, 0, Upto(linked), FirstFree(linked))
  {
    assert Upto(linked)[0..] == Upto(linked);
    UptoHas(linked);
  }

  lemma InitialIdle(next: seq<int>, use: seq<Use>)
    requires |next| == |use| == ENDPOINT_COUNT && Chain(next, 0, Upto(ENDPOINT_COUNT)[0..], NIL)
    requires forall e :: 0 <= e < |use| ==> use[e] == Idle
    ensures ListOf(next, 0, Upto(ENDPOINT_COUNT), use, Idle)
  {
    assert Upto(ENDPOINT_COUNT)[0..] == Upto(ENDPOINT_COUNT);
    UptoHas(ENDPOINT_COUNT);
  }

  lemma InitialListed(next: seq<int>, use: seq<Use>)
    requires |next| == |use| && forall e :: 0 <= e < |use| ==> use[e] == Idle
    ensures ListOf(next, NIL, [], use, Listed)
  {
  }

  lemma UptoHas(n: nat)
    ensures forall x :: 0 <= x < n ==> x in Upto(n)
  {
    forall x | 0 <= x < n ensures x in Upto(n) { assert Upto(n)[x] == x; }
  }

  /** The driver links each cell to the next and then initialises it, which clears the link again: its
      free list holds the first cell only. */
  method LinkThenInitialize(xs: array<Transfer>)
    requires xs.Length > 0
    modifies xs
    ensures forall x :: 0 <= x < xs.Length ==> xs[x] == Blank(true)
    ensures Chain(NextFree(xs[..]), 0, [0], NIL)
  {
    for i := 0 to xs.Length
      invariant forall x :: 0 <= x < i ==> xs[x] == Blank(true)
    {
      xs[i] := xs[i].(nextFree := if i + 1 < xs.Length then i + 1 else NIL);
      xs[i] := Blank(true);
    }
    assert [0][1..] == [];
  }

  // ---------------------------------------------------------------- lookup

  predicate AnswersTo(x: EndpointState, func: nat, ep: nat, direction: nat)
  {
    x.func == func && x.ep == ep && (x.isControl || x.direction == direction)
  }

  /** No listed endpoint answers to the key. */
  ghost predicate NoneIn(eps: seq<EndpointState>, use: seq<Use>, func: nat, ep: nat, direction: nat)
  {
    |use| == |eps| && forall f :: 0 <= f < |eps| && use[f] == Listed ==> !AnswersTo(eps[f], func, ep, direction)
  }

  class AsyncSchedule {
    var transfers: array<Transfer>
    var endpoints: array<EndpointState>
    var transactions: seq<Transaction>
    var freeAsyncTransferHead: int
    var freeEndpointStateHead: int
    var endpointStateHead: int
    var headNextQH: nat
    var asyncEnabled: bool
    var rootHubAddress: nat

    ghost var v: View
    ghost var log: seq<Completion>
    /** Some wait for the controller has timed out. */
    ghost var timedOut: bool
    /** The controller is executing the schedule. */
    ghost var running: bool

    /** The first `linked` cells are on the free list: one if each cell is linked before it is
        initialised, as in LinkThenInitialize, all of them if it is linked afterwards. */
    constructor (linked: nat, rootHub: nat)
      requires 1 <= linked <= TRANSFER_COUNT
      ensures Valid() && Settled(v) && v == InitialView(linked)
      ensures fresh(transfers) && fresh(endpoints) && transactions == [] && log == [] && rootHubAddress == rootHub
    {
      transfers := new Transfer[TRANSFER_COUNT](i => Blank(true));
      endpoints := new EndpointState[ENDPOINT_COUNT](i => BLANK_ENDPOINT);
      transactions, log := [], [];
      freeAsyncTransferHead, freeEndpointStateHead, endpointStateHead := 0, 0, NIL;
      headNextQH, asyncEnabled, rootHubAddress := QhLink(NIL), true, rootHub;
      timedOut, running := false, true;
      v := InitialView(linked);
      new;
      LinkCells(linked);
      InitialOk(M(), linked);
    }

    method LinkCells(linked: nat)
      requires transfers.Length == TRANSFER_COUNT && endpoints.Length == ENDPOINT_COUNT
      modifies transfers, endpoints
      ensures forall x :: 0 <= x < transfers.Length ==> transfers[x].nextFree == if x + 1 < linked then x + 1 else NIL
      ensures forall e :: 0 <= e < endpoints.Length ==>
        endpoints[e].nextEndpoint == if e + 1 < ENDPOINT_COUNT then e + 1 else NIL
    {
      for i := 0 to TRANSFER_COUNT
        invariant forall x :: 0 <= x < i ==> transfers[x].nextFree == if x + 1 < linked then x + 1 else NIL
      {
        transfers[i] := transfers[i].(nextFree := if i + 1 < linked then i + 1 else NIL);
      }
      for i := 0 to ENDPOINT_COUNT
        invariant forall x :: 0 <= x < transfers.Length ==>
          transfers[x].nextFree == if x + 1 < linked then x + 1 else NIL
        invariant forall e :: 0 <= e < i ==> endpoints[e].nextEndpoint == if e + 1 < ENDPOINT_COUNT then e + 1 else NIL
      {
        endpoints[i] := endpoints[i].(nextEndpoint := if i + 1 < ENDPOINT_COUNT then i + 1 else NIL);
      }
    }

    ghost function M(): Memory
      reads this`transfers, this`endpoints, this`transactions, this`freeAsyncTransferHead,
        this`freeEndpointStateHead, this`endpointStateHead, this`headNextQH, transfers, endpoints
    {
      Memory(transfers[..], endpoints[..], transactions, freeAsyncTransferHead, freeEndpointStateHead,
             endpointStateHead, headNextQH)
    }

    ghost predicate Valid()
      reads this`transfers, this`endpoints, this`transactions, this`freeAsyncTransferHead,
        this`freeEndpointStateHead, this`endpointStateHead, this`headNextQH, this`v, this`asyncEnabled, this`timedOut,
        this`running, transfers, endpoints
    {
      Ok(M(), v) && (timedOut || running == asyncEnabled)
    }

    /** The controller is not executing the schedule, as far as waiting for it can tell. */
    ghost predicate Stopped()
      reads this`running, this`timedOut
    {
      !running || timedOut
    }

    lemma Sizes()
      requires Valid()
      ensures |v.owner| == transfers.Length && |v.chain| == |transactions| && |v.home| == |transactions|
      ensures |v.queue| == endpoints.Length && |v.use| == endpoints.Length
      ensures freeAsyncTransferHead == (if v.free == [] then NIL else v.free[0])
      ensures v.free == [] <==> freeAsyncTransferHead == NIL
      ensures freeAsyncTransferHead != NIL ==> 0 <= freeAsyncTransferHead < transfers.Length
      ensures freeEndpointStateHead != NIL ==> 0 <= freeEndpointStateHead < endpoints.Length
      ensures endpointStateHead >= NIL
      ensures v.idle == [] <==> freeEndpointStateHead == NIL
    {
    }

    // -------------------------------------------------------------- the transfer pool

    method InitializeTransferDescriptor(x: int, terminate: bool)
      requires 0 <= x < transfers.Length
      modifies transfers
      ensures transfers[..] == old(transfers[..])[x := Blank(terminate)]
    {
      transfers[x] := Blank(terminate);
    }

    method AllocateAsyncTransfer() returns (x: int)
      requires Valid()
      modifies this`freeAsyncTransferHead, this`v, transfers
      ensures Valid()
      ensures old(v).free == [] ==> x == NIL && v == old(v) && transfers[..] == old(transfers[..])
      ensures old(v).free != [] ==>
        0 <= x < transfers.Length == |old(v).owner| && x == old(v).free[0] && old(v).owner[x] == Free
        && transfers[..] == old(transfers[..])[x := Blank(true)]
        && v == old(v).(owner := old(v).owner[x := Loose], free := old(v).free[1..])
    {
      hide Ok;
      Sizes();
      x := freeAsyncTransferHead;
      if x == NIL {
        return;
      }
      AllocateKeeps(M(), v, Blank(true));
      freeAsyncTransferHead := transfers[x].nextFree;
      InitializeTransferDescriptor(x, true);
      v := v.(owner := v.owner[x := Loose], free := v.free[1..]);
    }

    method ReleaseAsyncTransfer(x: int)
      requires Valid() && 0 <= x < transfers.Length && x < |v.owner| && v.owner[x] == Loose
      modifies this`freeAsyncTransferHead, this`v, transfers
      ensures Valid()
      ensures transfers[..] == old(transfers[..])[x := Blank(true).(nextFree := old(freeAsyncTransferHead))]
      ensures v == old(v).(owner := old(v).owner[x := Free], free := [x] + old(v).free)
    {
      hide Ok;
      ReleaseKeeps(M(), v, x, Blank(true).(nextFree := freeAsyncTransferHead));
      ghost var xs := transfers[..];
      InitializeTransferDescriptor(x, true);
      transfers[x] := transfers[x].(nextFree := freeAsyncTransferHead);
      assert transfers[..] == xs[x := Blank(true).(nextFree := freeAsyncTransferHead)];
      freeAsyncTransferHead := x;
      v := v.(owner := v.owner[x := Free], free := [x] + v.free);
    }

    /** Releases the loose cells cs, chained from head. */
    method ReleaseChain(head: int, ghost cs: seq<int>)
      requires Valid() && Chain(NextTransfer(transfers[..]), head, cs, NIL) && NoDup(cs)
      requires forall i :: 0 <= i < |cs| ==>
        0 <= cs[i] < transfers.Length && cs[i] < |v.owner| && v.owner[cs[i]] == Loose
      modifies this`freeAsyncTransferHead, this`v, transfers
      ensures Valid()
      ensures v == old(v).(owner := Marked(old(v).owner, cs, Free), free := Reversed(cs) + old(v).free)
      ensures forall x :: 0 <= x < transfers.Length && x !in cs ==> transfers[x] == old(transfers[x])
    {
      hide Ok, Marked, Reversed;
      ghost var v0, xs0 := v, transfers[..];
      MarkNone(v.owner);
      ReversedNone(v.free);
      var curr := head;
      ghost var i := 0;
      while curr != NIL
        invariant i <= |cs| && Valid()
        invariant Chain(NextTransfer(transfers[..]), curr, cs[i..], NIL)
        invariant v == v0.(owner := Marked(v0.owner, cs[..i], Free), free := Reversed(cs[..i]) + v0.free)
        invariant forall j :: i <= j < |cs| ==> v.owner[cs[j]] == Loose
        invariant forall x :: 0 <= x < transfers.Length && x !in cs[..i] ==> transfers[x] == xs0[x]
        decreases |cs| - i
      {
        ghost var xs := transfers[..];
        assert curr == cs[i] && cs[i..][1..] == cs[i + 1..];
        var next := transfers[curr].nextTransfer;
        ReleaseAsyncTransfer(curr);
        MarkMore(v0.owner, cs[..i], curr, Free);
        ReversedMore(cs, i, v0.free);
        ChainFrame(NextTransfer(xs), NextTransfer(transfers[..]), next, cs[i + 1..], NIL);
        curr := next;
        i := i + 1;
      }
      assert cs[..i] == cs;
    }

    lemma MarkNone(owner: seq<Owner>)
      ensures Marked(owner, [], Free) == owner && Marked(owner, [], Loose) == owner
    {
    }

    lemma MarkBack(owner: seq<Owner>, cs: seq<int>)
      requires forall i :: 0 <= i < |cs| ==> 0 <= cs[i] < |owner| && owner[cs[i]] == Free
      ensures Marked(Marked(owner, cs, Loose), cs, Free) == owner
    {
    }

    ghost predicate Extras(v0: View, xs0: seq<Transfer>, head: int, tail: int, cs: seq<int>)
      reads this`v, this`transfers, transfers
    {
      ExtrasOf(v0, xs0, v, transfers[..], head, tail, cs)
    }

    lemma NoExtras()
      requires Valid()
      ensures Extras(v, transfers[..], NIL, NIL, [])
    {
      Sizes();
      MarkNone(v.owner);
      assert v.free[0..] == v.free;
    }

    /** Allocates one more cell behind the chain. */
    method GrowExtras(head: int, tail: int, ghost v0: View, ghost xs0: seq<Transfer>, ghost cs: seq<int>)
      returns (x: int, head': int)
      requires Valid() && Extras(v0, xs0, head, tail, cs)
      modifies this`freeAsyncTransferHead, this`v, transfers
      ensures Valid()
      ensures x == NIL ==> |cs| == |v0.free| && Extras(v0, xs0, head, tail, cs)
      ensures x != NIL ==> Extras(v0, xs0, head', x, cs + [x])
    {
      hide Ok, ExtrasOf;
      Sizes();
      ghost var v1, xs := v, transfers[..];
      head' := head;
      x := AllocateAsyncTransfer();
      if x == NIL {
        ExtrasSize(v0, xs0, v, xs, head, tail, cs);
        return;
      }
      ExtrasGrow(v0, xs0, v1, xs, head, tail, cs, x);
      if head == NIL {
        head' := x;
      } else {
        LooseKeeps(M(), v, tail, transfers[tail].(nextTransfer := x));
        transfers[tail] := transfers[tail].(nextTransfer := x);
      }
      assert transfers[..] == Grown(xs, head, tail, x);
    }

    static lemma ExtrasSize(v0: View, xs0: seq<Transfer>, v: View, xs: seq<Transfer>, head: int, tail: int,
                            cs: seq<int>)
      requires ExtrasOf(v0, xs0, v, xs, head, tail, cs) && v.free == []
      ensures |cs| == |v0.free|
    {
    }

    /** Allocates and chains `count` cells; when the pool runs dry, gives back what it got. */
    method AllocateExtras(count: nat) returns (ok: bool, head: int, tail: int, ghost cs: seq<int>)
      requires Valid()
      modifies this`freeAsyncTransferHead, this`v, transfers
      ensures Valid()
      ensures !ok ==>
        v == old(v).(free := v.free) && |old(v).free| < count && KeptInUse(old(v).owner, old(transfers[..]))
      ensures ok ==> |cs| == count && Extras(old(v), old(transfers[..]), head, tail, cs)
    {
      hide Ok, Extras;
      ghost var v0, xs0 := v, transfers[..];
      NoExtras();
      ok, head, tail, cs := true, NIL, NIL, [];
      var i := 0;
      while i < count
        invariant 0 <= i <= count && |cs| == i && Valid() && Extras(v0, xs0, head, tail, cs)
      {
        var x, head' := GrowExtras(head, tail, v0, xs0, cs);
        if x == NIL {
          GiveBack(head, tail, v0, xs0, cs);
          ok := false;
          return;
        }
        head, tail, cs := head', x, cs + [x];
        i := i + 1;
      }
    }

    /** No cell that was in use changed. */
    ghost predicate KeptInUse(owner: seq<Owner>, xs: seq<Transfer>)
      reads this`transfers, transfers
    {
      |owner| == |xs| == transfers.Length && forall x :: 0 <= x < |xs| && InUse(owner[x]) ==> transfers[x] == xs[x]
    }

    method GiveBack(head: int, tail: int, ghost v0: View, ghost xs0: seq<Transfer>, ghost cs: seq<int>)
      requires Valid() && Extras(v0, xs0, head, tail, cs)
      modifies this`freeAsyncTransferHead, this`v, transfers
      ensures Valid() && v == v0.(free := v.free) && KeptInUse(v0.owner, xs0)
    {
      hide Ok, Marked;
      MarkedSizes(v0.owner, cs);
      ReleaseChain(head, cs);
      MarkBack(v0.owner, cs);
    }

    lemma MarkedSizes(owner: seq<Owner>, cs: seq<int>)
      ensures |Marked(owner, cs, Loose)| == |owner|
      ensures forall x :: 0 <= x < |owner| && x in cs ==> Marked(owner, cs, Loose)[x] == Loose
    {
    }

    // -------------------------------------------------------------- the controller's schedule

    /** Starts or stops the asynchronous schedule; the wait for the controller may time out. */
    method SetAsyncScheduleEnabled(enabled: bool) returns (ok: bool)
      requires timedOut || running == asyncEnabled
      modifies this`asyncEnabled, this`timedOut, this`running
      ensures asyncEnabled == enabled && timedOut == (old(timedOut) || !ok) && (timedOut || running == enabled)
      ensures old(asyncEnabled) == enabled ==> ok
    {
      if asyncEnabled == enabled {
        return true;
      }
      asyncEnabled := enabled;
      ok := *;
      if ok {
        running := enabled;
      } else {
        timedOut := true;
      }
    }

    /** Where an endpoint's queue starts. */
    ghost predicate OverlayAtQueue(e: int)
      reads this, transfers, endpoints
    {
      && Shape(M(), v) && 0 <= e < endpoints.Length
      && (v.queue[e] != [] ==> 0 <= v.queue[e][0] < |transactions|)
      && QueueStart(M(), v, e) >= NIL
      && endpoints[e].overlay.nextQTD == QtdPhys(QueueStart(M(), v, e))
    }

    /** Points an endpoint's queue head overlay at the start of its queue, with the schedule stopped. */
    method RebuildAsyncQueue(e: int) returns (ok: bool)
      requires Valid() && 0 <= e < endpoints.Length && e < |v.use| && v.use[e] == Listed
      modifies this`asyncEnabled, this`timedOut, this`running, endpoints
      ensures Valid()
      ensures endpoints[..] == old(endpoints[..])[e := old(endpoints[e]).(
                overlay := endpoints[e].overlay)]
      ensures ok ==> OverlayAtQueue(e) && asyncEnabled
      ensures ok ==>
        endpoints[e].overlay == Overlay(0, endpoints[e].overlay.nextQTD, TERMINATE, RebuiltToken(old(endpoints[e])),
                                        NO_BUFFERS)
      ensures timedOut == (old(timedOut) || !ok)
    {
      hide Ok, QueueOk;
      QueueFacts(e);
      var head := endpoints[e].transactionHead;
      var next := QtdPhys(if head != NIL then transactions[head].first else endpoints[e].dummyTransfer);
      ok := SetAsyncScheduleEnabled(false);
      if !ok {
        assert endpoints[..] == old(endpoints[..])[e := old(endpoints[e])];
        return;
      }
      var token := RebuiltToken(endpoints[e]);
      WriteOverlay(e, next, token);
      ok := SetAsyncScheduleEnabled(true);
    }

    /** Writes an endpoint's overlay with the schedule stopped. */
    method WriteOverlay(e: int, next: nat, token: nat)
      requires Valid() && Stopped() && 0 <= e < endpoints.Length
      modifies endpoints
      ensures Valid()
      ensures endpoints[..] == old(endpoints[..])[e := old(endpoints[e]).(
                overlay := Overlay(0, next, TERMINATE, token, NO_BUFFERS))]
    {
      hide Ok;
      OverlayKeeps(M(), v, e, Overlay(0, next, TERMINATE, token, NO_BUFFERS));
      ghost var eps := endpoints[..];
      var overlay := endpoints[e].overlay;
      overlay := overlay.(currentQTD := 0);
      overlay := overlay.(nextQTD := next);
      overlay := overlay.(altNextQTD := TERMINATE);
      overlay := overlay.(token := token);
      overlay := overlay.(buffer := NO_BUFFERS);
      endpoints[e] := endpoints[e].(overlay := overlay);
      assert endpoints[..] == eps[e := eps[e].(overlay := overlay)];
    }

    lemma QueueFacts(e: int)
      requires Valid() && 0 <= e < endpoints.Length && e < |v.use| && v.use[e] == Listed
      ensures Shape(M(), v) && e < |v.queue| && QueueOk(M(), v, e)
      ensures (endpoints[e].transactionHead == NIL) == (v.queue[e] == [])
      ensures v.queue[e] == [] ==> endpoints[e].transactionTail == NIL
      ensures v.queue[e] != [] ==> endpoints[e].transactionHead == v.queue[e][0]
      ensures v.queue[e] != [] ==> endpoints[e].transactionTail == v.queue[e][|v.queue[e]| - 1]
      ensures forall k :: 0 <= k < |v.queue[e]| ==>
        (0 <= v.queue[e][k] < |transactions| && v.home[v.queue[e][k]] == e && v.chain[v.queue[e][k]] != [])
      ensures 0 <= endpoints[e].dummyTransfer < transfers.Length && v.owner[endpoints[e].dummyTransfer] == Dummy(e)
      ensures DummyOk(transfers[endpoints[e].dummyTransfer])
      ensures NoDup(v.queue[e]) && Chain(NextTransaction(transactions), endpoints[e].transactionHead, v.queue[e], NIL)
      ensures v.queue[e] != [] ==> transactions[v.queue[e][0]].first >= 0
    {
      hide FreeOk, ListOk, RingOk, KeysOk;
      QueueParts(M(), v, e);
      if v.queue[e] != [] {
        var t := v.queue[e][0];
        assert ChainOk(M().xs, v.owner, t, M().txns[t], v.chain[t]);
      }
    }

    // -------------------------------------------------------------- lookup

    predicate Answers(e: int, func: nat, ep: nat, direction: nat)
      requires 0 <= e < endpoints.Length
      reads this`endpoints, endpoints
    {
      AnswersTo(endpoints[e], func, ep, direction)
    }

    /** No endpoint answers to the key. */
    ghost predicate NoneAnswers(func: nat, ep: nat, direction: nat)
      reads this`endpoints, this`v, endpoints
    {
      NoneIn(endpoints[..], v.use, func, ep, direction)
    }

    lemma AnswerFields(e: int, func: nat, ep: nat, direction: nat)
      requires 0 <= e < endpoints.Length && Answers(e, func, ep, direction)
      ensures endpoints[e].func == func && endpoints[e].ep == ep
      ensures endpoints[e].isControl || endpoints[e].direction == direction
    {
    }

    lemma NoneHasKey(func: nat, ep: nat, direction: nat)
      requires NoneAnswers(func, ep, direction)
      ensures |v.use| == endpoints.Length
      ensures forall f :: 0 <= f < endpoints.Length && v.use[f] == Listed ==>
        !(endpoints[f].func == func && endpoints[f].ep == ep
          && (endpoints[f].isControl || endpoints[f].direction == direction))
    {
    }

    /** The first listed endpoint that answers to the key. */
    method FindEndpointState(func: nat, ep: nat, direction: nat) returns (e: int, ghost j: nat)
      requires Valid()
      ensures j <= |v.listed| && (e == NIL <==> j == |v.listed|)
      ensures forall i :: 0 <= i < |v.listed| ==> 0 <= v.listed[i] < endpoints.Length
      ensures e != NIL ==>
        (j < |v.listed| && e == v.listed[j] && 0 <= e < endpoints.Length == |v.use| && v.use[e] == Listed
         && Answers(e, func, ep, direction))
      ensures e != NIL ==> forall i :: 0 <= i < j ==> !Answers(v.listed[i], func, ep, direction)
      ensures e == NIL <==> NoneAnswers(func, ep, direction)
      ensures e != NIL ==>
        (endpoints[e].func == func && endpoints[e].ep == ep
         && (endpoints[e].isControl || endpoints[e].direction == direction))
      ensures forall i :: 0 <= i < j ==>
        var f := v.listed[i]; !(endpoints[f].func == func && endpoints[f].ep == ep
                                && (endpoints[f].isControl || endpoints[f].direction == direction))
    {
      hide Ok;
      ListFacts();
      e, j := endpointStateHead, 0;
      while e != NIL
        invariant j <= |v.listed| && e == if j < |v.listed| then v.listed[j] else NIL
        invariant forall i :: 0 <= i < j ==> !Answers(v.listed[i], func, ep, direction)
        decreases |v.listed| - j
      {
        if endpoints[e].func == func && endpoints[e].ep == ep {
          if endpoints[e].isControl || endpoints[e].direction == direction {
            return;
          }
        }
        ChainLink(NextEndpoint(endpoints[..]), endpointStateHead, v.listed, NIL, j);
        e := endpoints[e].nextEndpoint;
        j := j + 1;
      }
    }

    lemma ListFacts()
      requires Valid()
      ensures |v.use| == endpoints.Length && NoDup(v.listed)
      ensures Chain(NextEndpoint(endpoints[..]), endpointStateHead, v.listed, NIL)
      ensures forall i :: 0 <= i < |v.listed| ==> 0 <= v.listed[i] < endpoints.Length && v.use[v.listed[i]] == Listed
      ensures forall f :: 0 <= f < endpoints.Length && v.use[f] == Listed ==> f in v.listed
      ensures v.listed != [] ==> endpointStateHead == v.listed[0]
      ensures v.listed == [] <==> endpointStateHead == NIL
    {
    }

    // -------------------------------------------------------------- submission

    /** Writes the descriptors of transaction t: the endpoint's old dummy first, then the extra cells in
        order, the last one leading to the new dummy. */
    method BuildTransfers(t: int, txn: Transaction, extraHead: int, newDummy: int, count: nat, control: bool,
                          maxPacketSize: nat, ghost c: seq<int>)
      requires count == TransferCount(txn.totalLength) == |c| && NoDup(c) && txn.first == c[0]
      requires newDummy >= NIL && forall i :: 0 <= i < |c| ==> 0 <= c[i] < transfers.Length
      requires Chain(NextTransfer(transfers[..]), extraHead, c[1..], NIL)
      modifies transfers
      ensures forall k :: 0 <= k < |c| ==>
        transfers[c[k]] == DescriptorAt(c, newDummy, t, txn, control, maxPacketSize, k)
      ensures forall x :: 0 <= x < transfers.Length && x !in c ==> transfers[x] == old(transfers[x])
    {
      hide DescriptorAt, ToggleAt, TransferCount, ChunkSize, MakeToken, BufferPointers, PartlyBuilt;
      ghost var xs0 := transfers[..];
      ghost var size := txn.totalLength;
      NothingBuilt(xs0, extraHead, c, newDummy, t, txn, control, maxPacketSize);
      var current, remaining, offset := txn.first, txn.totalLength, 0;
      var toggle := control && txn.direction != USB_ANY;
      ToggleFirst(control, txn.direction, maxPacketSize, size);
      var index := 0;
      while index < count
        invariant 0 <= index <= count
        invariant index < |c| ==> current == c[index] && offset == Offset(index) <= size
        invariant offset + remaining == size
        invariant toggle == ToggleAt(control, txn.direction, maxPacketSize, size, index)
        invariant PartlyBuilt(xs0, transfers[..], c, newDummy, t, txn, control, maxPacketSize, index)
      {
        ghost var xs := transfers[..];
        PartlyNext(xs0, xs, c, newDummy, t, txn, control, maxPacketSize, index);
        ChunksCover(size, index);
        var n := if remaining > CHUNK then CHUNK else remaining;
        ChunkIs(size, index, n);
        var next := NIL;
        var nextPhys := QtdPhys(newDummy);
        if index + 1 < count {
          next := if index == 0 then extraHead else transfers[current].nextTransfer;
          nextPhys := QtdPhys(next);
        }
        WriteDescriptor(current, t, n, Pid(txn.direction), next, nextPhys,
                        MakeToken(Pid(txn.direction), n, index + 1 == count, control && toggle),
                        if n != 0 then BufferPointers(txn.bouncePhys, offset) else [0, 0, 0, 0, 0]);
        DescriptorIs(c, newDummy, t, txn, control, maxPacketSize, index, transfers[current]);
        PartlyStep(xs0, xs, c, newDummy, t, txn, control, maxPacketSize, index);
        ToggleNext(control, txn.direction, maxPacketSize, size, index);
        if control && n != 0 && maxPacketSize != 0 && n % maxPacketSize == 0 {
          toggle := !toggle;
        }
        offset := offset + n;
        remaining := remaining - n;
        current := next;
        index := index + 1;
      }
      AllBuilt(xs0, transfers[..], c, newDummy, t, txn, control, maxPacketSize);
    }

    method WriteDescriptor(x: int, t: int, n: nat, pid: nat, next: int, nextPhys: nat, token: nat, buffer: seq<nat>)
      requires 0 <= x < transfers.Length
      modifies transfers
      ensures transfers[..] == old(transfers[..])[x := Transfer(NIL, next, t, n, pid, nextPhys, TERMINATE, token,
                                                                buffer)]
    {
      InitializeTransferDescriptor(x, false);
      transfers[x] := transfers[x].(nextQTD := nextPhys, altNextQTD := TERMINATE);
      transfers[x] := transfers[x].(token := token);
      transfers[x] := transfers[x].(buffer := buffer);
      transfers[x] := transfers[x].(transaction := t, transferLength := n, pid := pid, nextTransfer := next);
    }

    static lemma ToggleFirst(control: bool, direction: nat, maxPacketSize: nat, size: nat)
      ensures ToggleAt(control, direction, maxPacketSize, size, 0) == (control && direction != USB_ANY)
    {
    }

    static lemma ToggleNext(control: bool, direction: nat, maxPacketSize: nat, size: nat, k: nat)
      requires k < TransferCount(size)
      ensures Offset(k) <= size
      ensures var n := ChunkSize(size, k); var toggle := ToggleAt(control, direction, maxPacketSize, size, k);
        ToggleAt(control, direction, maxPacketSize, size, k + 1)
        == if control && n != 0 && maxPacketSize != 0 && n % maxPacketSize == 0 then !toggle else toggle
    {
    }

    static lemma ChunkIs(size: nat, k: nat, n: nat)
      requires Offset(k) <= size && n == if size - Offset(k) > CHUNK then CHUNK else size - Offset(k)
      ensures n == ChunkSize(size, k)
    {
    }

    static lemma DescriptorIs(c: seq<int>, newDummy: int, t: int, txn: Transaction, control: bool, maxPacketSize: nat,
                              k: nat, x: Transfer)
      requires k < |c| == TransferCount(txn.totalLength) && newDummy >= NIL && forall i :: 0 <= i < |c| ==> c[i] >= NIL
      requires Offset(k) <= txn.totalLength
      requires var n := ChunkSize(txn.totalLength, k);
        x == Transfer(NIL, if k + 1 < |c| then c[k + 1] else NIL, t, n, Pid(txn.direction),
                      QtdPhys(if k + 1 < |c| then c[k + 1] else newDummy), TERMINATE,
                      MakeToken(Pid(txn.direction), n, k + 1 == |c|,
                                control && ToggleAt(control, txn.direction, maxPacketSize, txn.totalLength, k)),
                      if n != 0 then BufferPointers(txn.bouncePhys, Offset(k)) else [0, 0, 0, 0, 0])
      ensures x == DescriptorAt(c, newDummy, t, txn, control, maxPacketSize, k)
    {
    }

    /** Queues transaction t, its record complete but for `next`, on listed endpoint e. */
    method LinkTransaction(e: int, t: int, txn: Transaction, extraHead: int, newDummy: int, count: nat, control: bool,
                           ghost extras: seq<int>)
      requires Valid() && Shape(M(), v) && CanAppend(M(), v, e, t, extras, newDummy, txn)
      requires count == TransferCount(txn.totalLength) && Chain(NextTransfer(transfers[..]), extraHead, extras, NIL)
      modifies this`transactions, this`v, transfers, endpoints
      ensures Valid()
      ensures v == AppendedView(old(v), e, t, [txn.first] + extras,
                                Claimed(old(v).owner, [txn.first] + extras, t, newDummy, e))
      ensures |transactions| == |old(transactions)| && transactions[t] == txn
      ensures forall u :: 0 <= u < |transactions| && u != t ==>
        transactions[u] == old(transactions)[u].(next := transactions[u].next)
      ensures endpoints[e].dummyTransfer == newDummy
      ensures forall f :: 0 <= f < endpoints.Length && f != e ==> endpoints[f] == old(endpoints[f])
      ensures SameKey(endpoints[e], old(endpoints[e])) && endpoints[e].isControl == old(endpoints[e].isControl)
      ensures endpoints[e].overlay == old(endpoints[e].overlay)
      ensures old(v).queue[e] == [] ==> endpoints[e].transactionHead == t
      ensures forall k :: 0 <= k <= |extras| ==> 0 <= ([txn.first] + extras)[k] < transfers.Length
      ensures var c := [txn.first] + extras; forall k :: 0 <= k < |c| ==>
        transfers[c[k]] == DescriptorAt(c, newDummy, t, txn, control, old(endpoints[e].maxPacketSize), k)
      ensures forall x :: 0 <= x < transfers.Length && x !in [txn.first] + extras ==> transfers[x] == old(transfers[x])
    {
      hide Ok, DescriptorAt, Claimed, QueueOk, Built, Chain, NoDup, TransferCount, DummyOk;
      ghost var m0, xs0 := M(), transfers[..];
      ghost var c := [txn.first] + extras;
      QueueFacts(e);
      AppendCells(m0, v, e, t, extras, newDummy, txn);
      BuildTransfers(t, txn, extraHead, newDummy, count, control, endpoints[e].maxPacketSize, c);
      DescriptorBuilt(xs0, transfers[..], c, newDummy, t, txn, control, endpoints[e].maxPacketSize);
      AppendKeeps(m0, v, e, t, transfers[..], extras, newDummy, txn);
      QueueTransaction(e, t, txn, newDummy);
      v := AppendedView(v, e, t, c, Claimed(v.owner, c, t, newDummy, e));
    }

    /** The record joins the endpoint's software queue, and the endpoint gets its new dummy. */
    method QueueTransaction(e: int, t: int, txn: Transaction, newDummy: int)
      requires 0 <= e < endpoints.Length && 0 <= t < |transactions|
      requires endpoints[e].transactionHead == NIL || 0 <= endpoints[e].transactionTail < |transactions|
      requires endpoints[e].transactionHead != NIL ==> endpoints[e].transactionTail != t
      modifies this`transactions, endpoints
      ensures M() == AppendedMemory(old(M()), e, t, transfers[..], newDummy, txn)
      ensures transactions[t] == txn
      ensures forall u :: 0 <= u < |transactions| && u != t ==>
        transactions[u] == old(transactions)[u].(next := transactions[u].next)
      ensures endpoints[e].dummyTransfer == newDummy && SameKey(endpoints[e], old(endpoints[e]))
      ensures endpoints[e].isControl == old(endpoints[e].isControl) && endpoints[e].overlay == old(endpoints[e].overlay)
      ensures old(endpoints[e].transactionHead) == NIL ==> endpoints[e].transactionHead == t
    {
      ghost var eps := endpoints[..];
      endpoints[e] := endpoints[e].(dummyTransfer := newDummy);
      transactions := transactions[t := txn];
      if endpoints[e].transactionHead == NIL {
        endpoints[e] := endpoints[e].(transactionHead := t);
      } else {
        var tail := endpoints[e].transactionTail;
        transactions := transactions[tail := transactions[tail].(next := t)];
      }
      endpoints[e] := endpoints[e].(transactionTail := t);
      assert endpoints[..] == eps[e := endpoints[e]];
    }

    static lemma AppendCells(m: Memory, v: View, e: int, t: int, extras: seq<int>, newDummy: int, txn: Transaction)
      requires Shape(m, v) && CanAppend(m, v, e, t, extras, newDummy, txn)
      requires 0 <= txn.first < |m.xs| && v.owner[txn.first] == Dummy(e)
      ensures NoDup([txn.first] + extras) && ([txn.first] + extras)[1..] == extras
      ensures forall i :: 0 <= i <= |extras| ==> 0 <= ([txn.first] + extras)[i] < |m.xs|
    {
    }

    /** Frees a detached transaction and its descriptors. */
    method ReleaseAsyncTransaction(t: int)
      requires Valid() && 0 <= t < |transactions| == |v.home| == |v.chain| && v.home[t] == NIL
      requires v.chain[t] == [] ==> transactions[t].first == NIL
      modifies this`freeAsyncTransferHead, this`v, transfers
      ensures Valid()
      ensures v == ReleasedView(old(v), t)
      ensures forall x :: 0 <= x < transfers.Length == |old(v).owner| && old(v).owner[x] != Chained(t) ==>
        transfers[x] == old(transfers[x])
    {
      hide Ok, Dissolved, Marked, Freed;
      Sizes();
      DissolveKeeps(M(), v, t);
      ghost var v0, cs := v, v.chain[t];
      v := Dissolved(v, t);
      DissolvedParts(v0, t);
      assert forall i :: 0 <= i < |cs| ==> cs[i] in cs;
      ReleaseChain(transactions[t].first, cs);
      FreedIs(v0, t, cs);
    }

    static lemma DissolvedParts(v: View, t: int)
      requires 0 <= t < |v.chain|
      ensures var v' := Dissolved(v, t);
        |v'.owner| == |v.owner| && v' == v.(chain := v.chain[t := []], owner := v'.owner)
      ensures forall x :: 0 <= x < |v.owner| && v.owner[x] == Chained(t) ==> Dissolved(v, t).owner[x] == Loose
    {
    }

    static lemma FreedIs(v: View, t: int, cs: seq<int>)
      requires 0 <= t < |v.chain|
      requires forall x :: 0 <= x < |v.owner| ==> (v.owner[x] == Chained(t) <==> x in cs)
      ensures Marked(Dissolved(v, t).owner, cs, Free) == Freed(v.owner, t)
    {
    }

    /** Takes back a submission the controller could not be told about: the queue was empty before. */
    method Rollback(e: int, t: int, first: int, extraHead: int, newDummy: int, ghost extras: seq<int>,
                    ghost owner0: seq<Owner>)
      requires Valid() && 0 <= e < endpoints.Length && e < |v.use| && v.use[e] == Listed && e < |v.queue|
      requires v.queue[e] == [t] && 0 <= t < |transactions| == |v.chain| == |v.home| && v.chain[t] == [first] + extras
      requires endpoints[e].dummyTransfer == newDummy && transactions[t].first == first
      requires extraHead == (if extras == [] then NIL else extras[0])
      requires CleanOwners(owner0, e, t, first, extras, newDummy)
      requires v.owner == Claimed(Marked(owner0, extras, Loose)[newDummy := Loose], [first] + extras, t, newDummy, e)
      modifies this`freeAsyncTransferHead, this`v, transfers, endpoints
      ensures Valid()
      ensures v == old(v).(owner := owner0, chain := old(v).chain[t := []], home := old(v).home[t := NIL],
                           queue := old(v).queue[e := []], free := [newDummy] + Reversed(extras) + old(v).free)
      ensures forall f :: 0 <= f < endpoints.Length && f != e ==> endpoints[f] == old(endpoints[f])
      ensures SameKey(endpoints[e], old(endpoints[e]))
    {
      hide Ok, Dissolved, Marked, Claimed, Reversed, CleanOwners, TransferCount, QueueOk;
      Sizes();
      ghost var v1 := v.(queue := v.queue[e := []], home := v.home[t := NIL]);
      Unqueue(e, t);
      RollbackOwners(v1, owner0, e, t, first, extras, newDummy);
      RollbackChain(transfers[..], first, extras, extraHead);
      RestoreDummy(e, first);
      ReleaseChain(extraHead, extras);
      ReleaseAsyncTransfer(newDummy);
    }

    static lemma RollbackChain(xs: seq<Transfer>, first: int, extras: seq<int>, extraHead: int)
      requires Chain(NextTransfer(xs), first, [first] + extras, NIL) && first !in extras && 0 <= first < |xs|
      requires extraHead == if extras == [] then NIL else extras[0]
      ensures Chain(NextTransfer(xs[first := Blank(true)]), extraHead, extras, NIL)
    {
      assert ([first] + extras)[1..] == extras;
      ChainSplit(NextTransfer(xs), first, [first], extras, NIL);
      ChainFrame(NextTransfer(xs), NextTransfer(xs[first := Blank(true)]), extraHead, extras, NIL);
    }

    /** The loose cell x becomes the dummy of an empty queue. */
    method RestoreDummy(e: int, x: int)
      requires Valid() && 0 <= e < endpoints.Length && e < |v.use| && v.use[e] == Listed && e < |v.queue|
        && v.queue[e] == []
      requires 0 <= x < transfers.Length && x < |v.owner| && v.owner[x] == Loose
      modifies this`v, transfers, endpoints
      ensures Valid() && transfers[..] == old(transfers[..])[x := Blank(true)]
      ensures 0 <= old(endpoints[e]).dummyTransfer < |old(v).owner|
      ensures v == old(v).(owner := old(v).owner[old(endpoints[e]).dummyTransfer := Loose][x := Dummy(e)])
      ensures endpoints[..] == old(endpoints[..])[e := old(endpoints[e]).(dummyTransfer := x)]
    {
      hide Ok;
      Sizes();
      SwapDummyKeeps(M(), v, e, x, Blank(true));
      ghost var d := endpoints[e].dummyTransfer;
      endpoints[e] := endpoints[e].(dummyTransfer := x);
      InitializeTransferDescriptor(x, true);
      v := v.(owner := v.owner[d := Loose][x := Dummy(e)]);
      assert endpoints[..] == old(endpoints[..])[e := old(endpoints[e]).(dummyTransfer := x)];
    }

    /** Empties a queue of one transaction, its descriptors left to the caller. */
    method Unqueue(e: int, t: int)
      requires Valid() && 0 <= e < endpoints.Length && e < |v.use| && v.use[e] == Listed && e < |v.queue|
      requires v.queue[e] == [t] && 0 <= t < |transactions| == |v.chain| == |v.home| && v.chain[t] != []
      modifies this`v, endpoints
      ensures Valid()
      ensures v == Dissolved(old(v).(queue := old(v).queue[e := []], home := old(v).home[t := NIL]), t)
      ensures Chain(NextTransfer(transfers[..]), transactions[t].first, old(v).chain[t], NIL)
      ensures endpoints[..] == old(endpoints[..])[e := old(endpoints[e]).(
                transactionHead := NIL, transactionTail := NIL)]
    {
      hide Ok, Dissolved, Detached;
      ghost var m0, v0 := M(), v;
      QueueFacts(e);
      DetachKeeps(m0, v, e, 1);
      DetachedOne(v, e, t);
      endpoints[e] := endpoints[e].(transactionHead := NIL);
      endpoints[e] := endpoints[e].(transactionTail := NIL);
      v := Detached(v, e, 1);
      assert M() == Advanced(m0, v0, e, 1);
      DissolveKeeps(M(), v, t);
      v := Dissolved(v, t);
    }

    static lemma DetachedOne(v: View, e: int, t: int)
      requires 0 <= e < |v.queue| && v.queue[e] == [t] && 0 <= t < |v.home|
      ensures Detached(v, e, 1) == v.(queue := v.queue[e := []], home := v.home[t := NIL])
    {
      assert v.queue[e][1..] == [] && v.queue[e][..1] == [t];
    }

    /** The owners before a submission: the dummy in place, the other cells free. */
    static ghost predicate CleanOwners(owner: seq<Owner>, e: int, t: int, first: int, extras: seq<int>, newDummy: int)
    {
      && 0 <= first < |owner| && owner[first] == Dummy(e) && 0 <= newDummy < |owner| && owner[newDummy] == Free
      && newDummy !in extras && NoDup(extras)
      && (forall i :: 0 <= i < |extras| ==> 0 <= extras[i] < |owner| && owner[extras[i]] == Free)
      && (forall x :: 0 <= x < |owner| ==> owner[x] != Chained(t) && owner[x] != Loose)
    }

    static lemma RollbackOwners(v: View, owner0: seq<Owner>, e: int, t: int, first: int, extras: seq<int>,
                                newDummy: int)
      requires CleanOwners(owner0, e, t, first, extras, newDummy) && 0 <= t < |v.chain|
      requires v.owner == Claimed(Marked(owner0, extras, Loose)[newDummy := Loose], [first] + extras, t, newDummy, e)
      ensures |v.owner| == |owner0| == |Dissolved(v, t).owner|
      ensures Dissolved(v, t) == v.(chain := v.chain[t := []], owner := Dissolved(v, t).owner)
      ensures 0 <= first < |owner0| && 0 <= newDummy < |owner0| && NoDup(extras) && first !in extras
      ensures forall i :: 0 <= i < |extras| ==> 0 <= extras[i] < |owner0|
      ensures var o := Dissolved(v, t).owner; o[first] == Loose && o[newDummy] == Dummy(e)
      ensures var o := Dissolved(v, t).owner[newDummy := Loose][first := Dummy(e)];
        forall i :: 0 <= i < |extras| ==> o[extras[i]] == Loose
      ensures Marked(Dissolved(v, t).owner[newDummy := Loose][first := Dummy(e)], extras,
                     Free)[newDummy := Free] == owner0
      ensures Marked(Dissolved(v, t).owner[newDummy := Loose][first := Dummy(e)], extras, Free)[newDummy] == Loose
    {
    }

    /** Transaction t of a successful submission over cells c, the rest as it was in v0. */
    ghost predicate Submitted(v0: View, xs0: seq<Transfer>, eps0: seq<EndpointState>, e: int, t: int, c: seq<int>,
                              completion: nat, direction: nat, size: nat, phys: nat, control: bool,
                              early: seq<nat>)
      reads this, transfers, endpoints
    {
      && t == |v0.chain| == |v0.home|
      && Queued(v0.(chain := v0.chain + [[]], home := v0.home + [NIL]), xs0, eps0,
                Transaction(completion, size, direction, phys, NIL, NIL, NIL), e, t, c, control, early)
    }

    /** The tokens with which the controller retires descriptors of a submission before the driver has stopped
        it: only where the driver will, because the queue was empty, and the controller was at its dummy. */
    static function Early(v0: View, eps0: seq<EndpointState>, e: int, early: seq<nat>): seq<nat>
    {
      if 0 <= e < |v0.queue| && e < |eps0| && v0.queue[e] == []
         && QtdAt(eps0[e].overlay.nextQTD) == eps0[e].dummyTransfer then early else []
    }

    static lemma EarlyNone(v0: View, eps0: seq<EndpointState>, e: int, early: seq<nat>)
      ensures Early(v0, eps0, e, []) == []
      ensures 0 <= e < |v0.queue| && v0.queue[e] != [] ==> Early(v0, eps0, e, early) == []
    {
    }

    /** A descriptor with its token rewritten, unless that would leave more bytes than there are. */
    static function Retired(x: Transfer, token: nat): Transfer
    {
      if Bytes(token) <= x.transferLength then x.(token := token) else x
    }

    static function Rewritten(x: Transfer, early: seq<nat>, k: nat): Transfer
    {
      if k < |early| then Retired(x, early[k]) else x
    }

    /** Transaction t is queued last on endpoint e over cells c: the old dummy and the first free
        cells, the next free cell being the new dummy.  Nothing else queued changed. */
    ghost predicate Queued(v0: View, xs0: seq<Transfer>, eps0: seq<EndpointState>, txn0: Transaction, e: int, t: int,
                           c: seq<int>, control: bool, early: seq<nat>)
      reads this, transfers, endpoints
    {
      QueuedIn(M(), v, v0, xs0, eps0, txn0, e, t, c, control, early)
    }

    static ghost predicate QueuedIn(m: Memory, v: View, v0: View, xs0: seq<Transfer>, eps0: seq<EndpointState>,
                                    txn0: Transaction, e: int, t: int, c: seq<int>, control: bool, early: seq<nat>)
    {
      && |v0.use| == |v0.queue| == |eps0| == |m.eps| && |v0.owner| == |xs0| == |m.xs|
      && 0 <= e < |m.eps| && v0.use[e] == Listed
      && 0 <= t < |v0.chain| == |v0.home| == |m.txns| && |c| == TransferCount(txn0.totalLength) <= |v0.free|
      && c == [eps0[e].dummyTransfer] + v0.free[..|c| - 1] && m.eps[e].dummyTransfer == v0.free[|c| - 1] >= NIL
      && v == v0.(owner := v.owner, free := v0.free[|c|..], chain := v0.chain[t := c], home := v0.home[t := e],
                  queue := v0.queue[e := v0.queue[e] + [t]])
      && m.txns[t] == txn0.(first := c[0], last := c[|c| - 1])
      && (forall k :: 0 <= k < |c| ==> 0 <= c[k] < |m.xs| && !v0.owner[c[k]].Chained?)
      && (forall k :: 0 <= k < |c| ==>
            m.xs[c[k]] == Rewritten(DescriptorAt(c, m.eps[e].dummyTransfer, t, m.txns[t], control,
                                                 eps0[e].maxPacketSize, k), Early(v0, eps0, e, early), k))
      && (forall x :: 0 <= x < |m.xs| && v0.owner[x].Chained? ==> m.xs[x] == xs0[x])
      && (forall f :: 0 <= f < |m.eps| && f != e ==> m.eps[f] == eps0[f])
      && (v0.queue[e] != [] ==> m.eps[e].overlay == eps0[e].overlay)
      && SameKey(m.eps[e], eps0[e]) && m.eps[e].isControl == eps0[e].isControl
    }

    /** The result of LinkTransaction in terms of the state before the cells were taken. */
    lemma QueuedIs(v0: View, xs0: seq<Transfer>, v1: View, xs1: seq<Transfer>, eps0: seq<EndpointState>,
                   txn0: Transaction,
                   e: int, t: int, head: int, tail: int, extras: seq<int>, newDummy: int, control: bool)
      requires Ready(v0, xs0, v1, xs1, head, tail, extras, newDummy)
        && |eps0| == endpoints.Length == |v0.use| == |v0.queue|
      requires 0 <= e < |eps0| && v0.use[e] == Listed && 0 <= t < |transactions| == |v0.chain| == |v0.home|
      requires 0 <= eps0[e].dummyTransfer < |v0.owner| && v0.owner[eps0[e].dummyTransfer] == Dummy(e)
      requires |extras| + 1 == TransferCount(txn0.totalLength) && transfers.Length == |xs0|
      requires var c := [eps0[e].dummyTransfer] + extras;
        && v == AppendedView(v1, e, t, c, Claimed(v1.owner, c, t, newDummy, e))
        && transactions[t] == txn0.(first := c[0], last := if tail != NIL then tail else c[0])
        && endpoints[e].dummyTransfer == newDummy
        && (forall k :: 0 <= k < |c| ==> 0 <= c[k] < transfers.Length)
        && (forall k :: 0 <= k < |c| ==>
              transfers[c[k]] == DescriptorAt(c, newDummy, t, transactions[t], control, eps0[e].maxPacketSize, k))
        && (forall x :: 0 <= x < transfers.Length && x !in c ==> transfers[x] == xs1[x])
      requires forall f :: 0 <= f < endpoints.Length && f != e ==> endpoints[f] == eps0[f]
      requires endpoints[e].overlay == eps0[e].overlay
      requires SameKey(endpoints[e], eps0[e]) && endpoints[e].isControl == eps0[e].isControl
      ensures Queued(v0, xs0, eps0, txn0, e, t, [eps0[e].dummyTransfer] + extras, control, [])
    {
      hide DescriptorAt, Claimed, Marked;
      var c := [eps0[e].dummyTransfer] + extras;
      assert extras != [] ==> c[|c| - 1] == extras[|extras| - 1];
      assert forall x :: x in c ==> x == eps0[e].dummyTransfer || x in extras;
    }

    /** Queues the transfer of a buffer on the endpoint that answers to the key.  Every failing exit
        leaves the pool, the queues and the endpoint list divided as they were.  The controller may already
        execute the new descriptors; before a queue that was empty is restarted, it has retired the first
        ones with the tokens `early`. */
    method SubmitAsyncTransfer(func: nat, ep: nat, direction: nat, completion: nat, hasBuffer: bool, bufferSize: nat,
                               control: bool, bounce: Bounce, readOk: bool, early: seq<nat>)
      returns (status: IOStatus, ghost e: int, ghost t: int, ghost c: seq<int>)
      requires Valid() && Settled(v) && (bounce.NoBounce? ==> bounce.status != Success)
      requires bounce.BounceAt? ==> bufferSize + CHUNK - 1 < WORD
      modifies this`freeAsyncTransferHead, this`transactions, this`v, this`asyncEnabled, this`timedOut, this`running,
        transfers, endpoints
      ensures Valid() && Settled(v)
      ensures status != Success ==> SameView(old(v), v)
      ensures status !in {Success, Timeout} ==>
        endpoints[..] == old(endpoints[..]) && KeptInUse(old(v).owner, old(transfers[..]))
      ensures status == Success ==>
        bounce.BounceAt? && Submitted(old(v), old(transfers[..]), old(endpoints[..]), e, t, c, completion, direction,
                                      bufferSize, bounce.phys, control, early)
      ensures old(NoneAnswers(func, ep, if control then USB_ANY else direction)) ==> status == EndpointNotFound
      ensures bounce.BounceAt? && status == EndpointNotFound ==>
        old(NoneAnswers(func, ep, if control then USB_ANY else direction))
      ensures status == Success ==> old(FirstAnswer(e, func, ep, if control then USB_ANY else direction))
      ensures status == Success ==>
        (0 <= e < endpoints.Length && old(endpoints[e]).func == func && old(endpoints[e]).ep == ep
         && (old(endpoints[e]).isControl || old(endpoints[e]).direction == if control then USB_ANY else direction))
      ensures bounce.BounceAt? && status == EndpointNotFound ==>
        forall f :: 0 <= f < endpoints.Length == |old(v).use| && old(v).use[f] == Listed ==>
          !(old(endpoints[f]).func == func && old(endpoints[f]).ep == ep
            && (old(endpoints[f]).isControl
                || old(endpoints[f]).direction == if control then USB_ANY else direction))
      ensures bounce.BounceAt? ==> (status == BadArgument <==>
        old(!NoneAnswers(func, ep, if control then USB_ANY else direction)) && bufferSize != 0 && !hasBuffer)
      ensures bounce.BounceAt? ==> (status == DMAError <==>
        old(!NoneAnswers(func, ep, if control then USB_ANY else direction)) && bufferSize != 0 && hasBuffer
        && direction != USB_IN && !readOk)
      ensures status == Success && old(v).queue[e] == [] ==> OverlayAtQueue(e)
      ensures bounce.BounceAt? && status in {Success, Timeout, NoMemory} ==>
        (status == NoMemory <==> |old(v).free| < TransferCount(bufferSize))
      ensures status !in {Success, Timeout} ==> PlacesKept(old(M()), old(v), M(), v, NIL)
      ensures status == Success ==> PlacesKept(old(M()), old(v), M(), v, e) && PlaceAfter(old(M()), old(v), e, t)
      ensures bounce.BounceAt? && status == Timeout ==> timedOut
      ensures bounce.BounceAt? ==> status in {Success, EndpointNotFound, BadArgument, DMAError, NoMemory, Timeout}
    {
      hide Ok, Settled, Queued, SameView, OverlayAtQueue, QueueOk, NoneIn, AnswersTo, PlacesKept, PlaceAfter,
        TransferCount, InUse;
      t, c := NIL, [];
      Sizes();
      Same(v);
      PlacesSame(M(), v);
      var found;
      ghost var j;
      found, j := FindEndpointState(func, ep, if control then USB_ANY else direction);
      e := found;
      if found == NIL {
        NoneHasKey(func, ep, if control then USB_ANY else direction);
        return EndpointNotFound, e, t, c;
      }
      FoundFirst(j, e, func, ep, if control then USB_ANY else direction);
      AnswerFields(e, func, ep, if control then USB_ANY else direction);
      if bufferSize != 0 && !hasBuffer {
        return BadArgument, e, t, c;
      }
      var txn := Transaction(completion, bufferSize, direction, if bounce.BounceAt? then bounce.phys else 0, NIL, NIL,
                             NIL);
      status, t, c := SubmitRecord(found, txn, bounce, bufferSize == 0 || direction == USB_IN || readOk, control,
                                   early);
    }

    /** Queues a new transaction on endpoint e, unless its bounce buffer cannot be had or filled. */
    method SubmitRecord(e: int, txn: Transaction, bounce: Bounce, filled: bool, control: bool, early: seq<nat>)
      returns (status: IOStatus, ghost t: int, ghost c: seq<int>)
      requires Valid() && Settled(v) && 0 <= e < endpoints.Length == |v.use| == |v.queue| && v.use[e] == Listed
      requires txn.first == NIL && txn.next == NIL && (bounce.NoBounce? ==> bounce.status != Success)
      requires bounce.BounceAt? ==> txn.totalLength + CHUNK - 1 < WORD
      modifies this`freeAsyncTransferHead, this`transactions, this`v, this`asyncEnabled, this`timedOut, this`running,
        transfers, endpoints
      ensures Valid() && Settled(v)
      ensures status != Success ==> SameView(old(v), v)
      ensures status !in {Success, Timeout} ==>
        endpoints[..] == old(endpoints[..]) && KeptInUse(old(v).owner, old(transfers[..]))
        && PlacesKept(old(M()), old(v), M(), v, NIL)
      ensures bounce.NoBounce? ==> status == bounce.status
      ensures bounce.BounceAt? ==> (status == DMAError <==> !filled)
      ensures bounce.BounceAt? ==> status in {Success, DMAError, NoMemory, Timeout}
      ensures bounce.BounceAt? && filled ==> (status == NoMemory <==> |old(v).free| < TransferCount(txn.totalLength))
      ensures status == Success ==>
        (t == |old(v).chain| == |old(v).home|
         && Queued(old(v).(chain := old(v).chain + [[]], home := old(v).home + [NIL]), old(transfers[..]),
                   old(endpoints[..]), txn, e, t, c, control, early))
      ensures status == Success && old(v).queue[e] == [] ==> OverlayAtQueue(e)
      ensures status == Success ==> PlacesKept(old(M()), old(v), M(), v, e) && PlaceAfter(old(M()), old(v), e, t)
      ensures bounce.BounceAt? && status == Timeout ==> timedOut
    {
      hide Ok, Settled, Queued, SameView, OverlayAtQueue, QueueOk, PlacesKept, PlaceAfter, TransferCount, InUse;
      t, c := NIL, [];
      Sizes();
      ghost var m0, v0 := M(), v;
      var id := NewTransaction(txn);
      ghost var m1, v1 := M(), v;
      if bounce.NoBounce? {
        ReleaseEmpty(id);
        PlacesKeptOn(m0, v0, m1, v1, M(), v, NIL);
        return bounce.status, t, c;
      }
      if !filled {
        ReleaseEmpty(id);
        PlacesKeptOn(m0, v0, m1, v1, M(), v, NIL);
        return DMAError, t, c;
      }
      status, t, c := SubmitTransaction(e, id, control, early);
      if status != Success { SameFree(v0, v1, v); }
      if status != Timeout { PlacesKeptOn(m0, v0, m1, v1, M(), v, if status == Success then e else NIL); }
      if status == Success { PlaceAfterNew(m0, v0, m1, v1, e, t); }
    }

    /** The controller in the queue of endpoint e after transaction t is queued: where it was, if the queue was
        not empty; otherwise restarted there, in its place exactly if none of the descriptors has retired. */
    ghost predicate PlaceAfter(m0: Memory, v0: View, e: int, t: int)
      reads this, transfers, endpoints
    {
      && Shape(m0, v0) && Shape(M(), v) && 0 <= e < |m0.eps| == endpoints.Length
      && if v0.queue[e] != [] then Keeps(m0, v0, M(), v, e)
         else Stands(M(), v, e) && (HasPlace(M(), v, e) <==> NoneRetired(transfers[..], v.chain, [t]))
    }

    lemma PlaceAfterNew(m0: Memory, v0: View, m1: Memory, v1: View, e: int, t: int)
      requires PlacesKept(m0, v0, m1, v1, NIL) && PlaceAfter(m1, v1, e, t) && v1.queue == v0.queue
      requires 0 <= e < |v0.use| && v0.use[e] == v1.use[e] == Listed
      ensures PlaceAfter(m0, v0, e, t)
    {
      hide HasPlace, Stands, NoneRetired;
    }

    /** Adds a transaction that is on no queue and has no descriptors yet. */
    method NewTransaction(txn: Transaction) returns (id: nat)
      requires Valid() && Settled(v) && txn.first == NIL && txn.next == NIL
      modifies this`transactions, this`v
      ensures Valid() && Settled(v) && SameView(old(v), v)
      ensures id == |old(transactions)| && transactions == old(transactions) + [txn]
      ensures |v.home| == |v.chain| == |transactions| && v.home[id] == NIL && v.chain[id] == []
      ensures v == old(v).(chain := old(v).chain + [[]], home := old(v).home + [NIL])
      ensures PlacesKept(old(M()), old(v), M(), v, NIL)
    {
      hide Ok, Settled, SameView, PlacesKept;
      ghost var m0, v0 := M(), v;
      NewTransactionKeeps(M(), v, txn);
      Sizes();
      SettledNew(v);
      id := |transactions|;
      transactions := transactions + [txn];
      v := v.(chain := v.chain + [[]], home := v.home + [NIL]);
      SamePlaces(m0, v0);
    }

    static lemma SettledFree(v0: View, v: View)
      requires Settled(v0) && v == v0.(free := v.free)
      ensures Settled(v)
    {
    }

    static lemma SameFree(v0: View, v1: View, v: View)
      requires SameView(v0, v1) && v == v1.(free := v.free)
      ensures SameView(v0, v)
    {
    }

    static lemma Same(v: View)
      requires |v.chain| == |v.home|
      ensures SameView(v, v)
    {
    }

    static lemma SettledNew(v: View)
      requires Settled(v) && |v.chain| == |v.home|
      ensures Settled(v.(chain := v.chain + [[]], home := v.home + [NIL]))
      ensures SameView(v, v.(chain := v.chain + [[]], home := v.home + [NIL]))
    {
    }

    /** Frees a transaction that never got descriptors. */
    method ReleaseEmpty(t: int)
      requires Valid() && 0 <= t < |transactions| == |v.home| == |v.chain| && v.home[t] == NIL
      requires v.chain[t] == [] && transactions[t].first == NIL
      modifies this`freeAsyncTransferHead, this`v, transfers
      ensures Valid() && v == old(v) && KeptInUse(old(v).owner, old(transfers[..]))
      ensures PlacesKept(old(M()), old(v), M(), v, NIL)
    {
      hide Ok, Freed, PlacesKept;
      ghost var m0, v0 := M(), v;
      Sizes();
      NoCells(t);
      ReleaseAsyncTransaction(t);
      SamePlaces(m0, v0);
    }

    lemma NoCells(t: int)
      requires Valid() && 0 <= t < |transactions| == |v.home| == |v.chain| && v.chain[t] == []
      ensures ReleasedView(v, t) == v
      ensures forall x :: 0 <= x < |v.owner| ==> v.owner[x] != Chained(t)
    {
      hide QueuesOk, ListOk, RingOk, KeysOk, FreeOk, ChainOk;
    }

    /** Gives transaction id its descriptors and queues it. */
    method SubmitTransaction(e: int, id: int, control: bool, early: seq<nat>)
      returns (status: IOStatus, ghost t: int, ghost c: seq<int>)
      requires Valid() && Settled(v) && 0 <= e < endpoints.Length == |v.use| == |v.queue| && v.use[e] == Listed
      requires 0 <= id < |transactions| == |v.home| == |v.chain| && v.home[id] == NIL && v.chain[id] == []
      requires transactions[id].first == NIL && transactions[id].next == NIL && id == |transactions| - 1
      requires transactions[id].totalLength + CHUNK - 1 < WORD
      modifies this`freeAsyncTransferHead, this`transactions, this`v, this`asyncEnabled, this`timedOut, this`running,
        transfers, endpoints
      ensures Valid() && Settled(v)
      ensures status in {Success, NoMemory, Timeout} && (status != Success ==> v == old(v).(free := v.free))
      ensures status == NoMemory <==> |old(v).free| < TransferCount(old(transactions[id].totalLength))
      ensures status == NoMemory ==> endpoints[..] == old(endpoints[..]) && KeptInUse(old(v).owner, old(transfers[..]))
      ensures status == Success ==> t == id
      ensures status == Success ==>
        Queued(old(v), old(transfers[..]), old(endpoints[..]), old(transactions[id]), e, id, c, control, early)
      ensures status == Success && old(v).queue[e] == [] ==> OverlayAtQueue(e)
      ensures status == NoMemory ==> PlacesKept(old(M()), old(v), M(), v, NIL)
      ensures status == Success ==> PlacesKept(old(M()), old(v), M(), v, e) && PlaceAfter(old(M()), old(v), e, id)
      ensures status == Timeout ==> timedOut
    {
      hide Ok, Settled, Queued, PlacesKept, PlaceAfter, Extras, OverlayAtQueue, QueueOk, TransferCount,
        TransferCount32, Ready, Claimed, Marked, CleanOwners;
      ghost var m0, v0, xs0, txn0 := M(), v, transfers[..], transactions[id];
      Sizes();
      t, c := id, [];
      NoCells(id);
      CountExactIff(transactions[id].totalLength);
      var count := TransferCount32(transactions[id].totalLength);
      var newDummy, extraHead, extraTail;
      ghost var extras;
      newDummy, extraHead, extraTail, extras := GatherCells(count);
      if newDummy == NIL {
        SettledFree(v0, v);
        ReleaseEmpty(id);
        SamePlaces(m0, v0);
        return NoMemory, t, c;
      }
      var ok;
      ok, c := QueueCells(e, id, newDummy, extraHead, extraTail, control, early, v0, xs0, extras);
      if ok { QueuedPlaces(m0, v0, txn0, e, id, c, control, early); }
      status := if ok then Success else Timeout;
    }

    /** Queues transaction t on the dummy of endpoint e and the cells in hand. */
    method QueueCells(e: int, t: int, newDummy: int, head: int, tail: int, control: bool, early: seq<nat>,
                      ghost v0: View, ghost xs0: seq<Transfer>, ghost extras: seq<int>)
      returns (ok: bool, ghost c: seq<int>)
      requires Valid() && Settled(v0) && 0 <= e < endpoints.Length == |v0.use| == |v0.queue| && v0.use[e] == Listed
      requires 0 <= t < |transactions| == |v0.home| == |v0.chain| && v0.home[t] == NIL && v0.chain[t] == []
      requires transactions[t].next == NIL && |extras| + 1 == TransferCount(transactions[t].totalLength)
      requires Ready(v0, xs0, v, transfers[..], head, tail, extras, newDummy)
      requires forall x :: 0 <= x < |v0.owner| ==> v0.owner[x] != Chained(t)
      modifies this`freeAsyncTransferHead, this`transactions, this`v, this`asyncEnabled, this`timedOut, this`running,
        transfers, endpoints
      ensures Valid() && Settled(v)
      ensures !ok ==> v == v0.(free := v.free) && timedOut
      ensures ok ==> Queued(v0, xs0, old(endpoints[..]), old(transactions[t]), e, t, c, control, early)
      ensures ok && v0.queue[e] == [] ==> OverlayAtQueue(e)
    {
      hide Ok, Settled, OverlayAtQueue, QueueOk, Ready, CleanOwners, Freshly, DescriptorAt, Rewritten, Early,
        TransferCount;
      EarlyNone(v0, endpoints[..], e, early);
      ghost var v1, eps0, txn0 := v, endpoints[..], transactions[t];
      var first, queueWasEmpty;
      first, queueWasEmpty, c := LinkQueue(e, t, newDummy, head, tail, control, v0, xs0, extras);
      ok := true;
      if queueWasEmpty {
        ControllerRuns(e, first, early, v0, xs0, eps0, txn0, t, c, control);
        ok := StartQueue(e, t, first, head, newDummy, extras, v0, v1);
      }
    }

    /** Queues transaction t over its cells, without telling the controller. */
    method LinkQueue(e: int, t: int, newDummy: int, head: int, tail: int, control: bool,
                     ghost v0: View, ghost xs0: seq<Transfer>, ghost extras: seq<int>)
      returns (first: int, queueWasEmpty: bool, ghost c: seq<int>)
      requires Valid() && Settled(v0) && 0 <= e < endpoints.Length == |v0.use| == |v0.queue| && v0.use[e] == Listed
      requires 0 <= t < |transactions| == |v0.home| == |v0.chain| && v0.home[t] == NIL && v0.chain[t] == []
      requires transactions[t].next == NIL && |extras| + 1 == TransferCount(transactions[t].totalLength)
      requires Ready(v0, xs0, v, transfers[..], head, tail, extras, newDummy)
      requires forall x :: 0 <= x < |v0.owner| ==> v0.owner[x] != Chained(t)
      modifies this`transactions, this`v, transfers, endpoints
      ensures Valid() && Settled(v) && e < |v.use| && v.use[e] == Listed
      ensures queueWasEmpty == (v0.queue[e] == []) && first == old(endpoints[e]).dummyTransfer
      ensures endpoints[e].overlay == old(endpoints[e]).overlay
      ensures Queued(v0, xs0, old(endpoints[..]), old(transactions[t]), e, t, c, control, [])
      ensures Freshly(v0, old(v), v, e, t, first, extras, newDummy)
        && CleanOwners(v0.owner, e, t, first, extras, newDummy)
      ensures endpoints[e].dummyTransfer == newDummy && t < |transactions| && transactions[t].first == first
      ensures head == (if extras == [] then NIL else extras[0])
    {
      hide Ok, Settled, Queued, QueueOk, TransferCount, Ready, Claimed, Marked, CleanOwners, Freshly;
      ghost var v1, xs1, eps0, txn0 := v, transfers[..], endpoints[..], transactions[t];
      var count := TransferCount(transactions[t].totalLength);
      SameLists(v0, xs0, v, xs1, head, tail, extras, newDummy);
      QueueFacts(e);
      first := endpoints[e].dummyTransfer;
      FirstIsDummy(v0, xs0, v, xs1, head, tail, extras, newDummy, first, e);
      var txn := transactions[t].(first := first, last := if tail != NIL then tail else first);
      queueWasEmpty := endpoints[e].transactionHead == NIL;
      CleanReady(v0, xs0, v1, xs1, e, t, first, head, tail, extras, newDummy);
      CanAppendReady(M(), v0, xs0, v1, e, t, head, tail, extras, newDummy, txn);
      LinkTransaction(e, t, txn, head, newDummy, count, control, extras);
      c := [first] + extras;
      SettledQueued(v0, xs0, v1, xs1, e, t, first, head, tail, extras, newDummy);
      FreshlyIs(v0, v1, v, e, t, first, extras, newDummy);
      QueuedIs(v0, xs0, v1, xs1, eps0, txn0, e, t, head, tail, extras, newDummy, control);
    }

    static lemma SameLists(v0: View, xs0: seq<Transfer>, v: View, xs: seq<Transfer>, head: int, tail: int,
                           cs: seq<int>, newDummy: int)
      requires Ready(v0, xs0, v, xs, head, tail, cs, newDummy)
      ensures v == v0.(owner := v.owner, free := v.free) && |v.owner| == |v0.owner| == |xs0| == |xs|
    {
    }

    static lemma FirstIsDummy(v0: View, xs0: seq<Transfer>, v: View, xs: seq<Transfer>, head: int, tail: int,
                              cs: seq<int>,
                              newDummy: int, x: int, e: int)
      requires Ready(v0, xs0, v, xs, head, tail, cs, newDummy) && 0 <= x < |v.owner| && v.owner[x] == Dummy(e)
      ensures |v.owner| == |v0.owner| && v0.owner[x] == Dummy(e)
    {
    }

    /** v is v1, the view v0 with the cells in hand, after transaction t is queued on them. */
    static ghost predicate Freshly(v0: View, v1: View, v: View, e: int, t: int, first: int, extras: seq<int>,
                                   newDummy: int)
    {
      && 0 <= e < |v0.queue| && 0 <= t < |v0.chain| == |v0.home| && 0 <= newDummy < |v0.owner|
      && v0.chain[t] == [] && v0.home[t] == NIL
      && v1 == v0.(owner := v1.owner, free := v1.free) && v1.owner == Marked(v0.owner, extras, Loose)[newDummy := Loose]
      && v == AppendedView(v1, e, t, [first] + extras, Claimed(v1.owner, [first] + extras, t, newDummy, e))
    }

    static lemma FreshlyIs(v0: View, v1: View, v: View, e: int, t: int, first: int, extras: seq<int>, newDummy: int)
      requires 0 <= e < |v0.queue| && 0 <= t < |v0.chain| == |v0.home| && 0 <= newDummy < |v0.owner|
      requires v0.chain[t] == [] && v0.home[t] == NIL
      requires v1 == v0.(owner := v1.owner, free := v1.free)
        && v1.owner == Marked(v0.owner, extras, Loose)[newDummy := Loose]
      requires v == AppendedView(v1, e, t, [first] + extras, Claimed(v1.owner, [first] + extras, t, newDummy, e))
      ensures Freshly(v0, v1, v, e, t, first, extras, newDummy)
    {
    }

    /** While the driver is about to restart a queue that was empty, the controller, if it was at the dummy,
        executes and retires the first descriptors of transaction t with the tokens `early`. */
    method ControllerRuns(e: int, first: int, early: seq<nat>, ghost v0: View, ghost xs0: seq<Transfer>,
                          ghost eps0: seq<EndpointState>, ghost txn0: Transaction, ghost t: int, ghost c: seq<int>,
                          ghost control: bool)
      requires Valid() && Queued(v0, xs0, eps0, txn0, e, t, c, control, []) && e < |v.use| && v.use[e] == Listed
      requires v0.queue[e] == [] && first == eps0[e].dummyTransfer && endpoints[e].overlay == eps0[e].overlay
      modifies transfers, endpoints
      ensures Valid() && Queued(v0, xs0, eps0, txn0, e, t, c, control, early)
      ensures endpoints[..] == old(endpoints[..])[e := old(endpoints[e]).(overlay := endpoints[e].overlay)]
    {
      hide Ok, QueuedIn, QueueOk, Early, RunTo;
      ghost var m0 := M();
      RunStarts(v0, xs0, eps0, txn0, e, t, c, control, early);
      if QtdAt(endpoints[e].overlay.nextQTD) == first {
        ghost var k := ExecuteEarly(e, early, c);
        RunEnds(m0, M(), v, v0, xs0, eps0, txn0, e, t, c, control, early, k);
      }
    }

    /** The controller executes the descriptors c, as many as there are or as `early` has tokens for. */
    method ExecuteEarly(e: int, early: seq<nat>, ghost c: seq<int>) returns (ghost n: nat)
      requires Valid() && 0 <= e < endpoints.Length && RunTo(M(), M(), v, e, c, early, 0)
      modifies transfers, endpoints
      ensures Valid() && RunTo(old(M()), M(), v, e, c, early, n) && (n == |early| || n == |c|)
    {
      hide Ok, RunTo, Retired, Rewritten;
      ghost var m0 := M();
      var k := 0;
      while k < |early|
        invariant 0 <= k <= |early| && Valid() && RunTo(m0, M(), v, e, c, early, k)
      {
        RunNext(m0, M(), v, e, c, early, k);
        if !Active(transfers[QtdAt(endpoints[e].overlay.nextQTD)].token) {
          return k;
        }
        ghost var m := M();
        ControllerExecutes(e, early[k]);
        RunMore(m0, m, M(), v, e, c, early, k);
        k := k + 1;
      }
      n := k;
    }

    /** The controller executes and retires the next descriptor of an endpoint's queue. */
    method ControllerExecutes(e: int, token: nat)
      requires Valid() && 0 <= e < endpoints.Length
      requires var x := QtdAt(endpoints[e].overlay.nextQTD);
        0 <= x < transfers.Length && x < |v.owner| && v.owner[x].Chained?
      modifies transfers, endpoints
      ensures Valid()
      ensures var x := old(QtdAt(endpoints[e].overlay.nextQTD));
        && 0 <= x < transfers.Length && transfers[..] == old(transfers[..])[x := Retired(old(transfers[x]), token)]
        && endpoints[..] == old(endpoints[..])[e := old(endpoints[e]).(overlay := endpoints[e].overlay)]
        && endpoints[e].overlay == Overlay(old(endpoints[e]).overlay.nextQTD, transfers[x].nextQTD,
                                           transfers[x].altNextQTD, transfers[x].token, transfers[x].buffer)
        && transfers[x].nextQTD == old(transfers[x]).nextQTD
    {
      hide Ok;
      ghost var xs, eps := transfers[..], endpoints[..];
      var x := QtdAt(endpoints[e].overlay.nextQTD);
      var overlay := Overlay(endpoints[e].overlay.nextQTD, transfers[x].nextQTD, transfers[x].altNextQTD,
                             transfers[x].token, transfers[x].buffer);
      if Bytes(token) <= transfers[x].transferLength {
        ControllerWrites(x, token);
        overlay := overlay.(token := token);
      }
      OverlayKeeps(M(), v, e, overlay);
      endpoints[e] := endpoints[e].(overlay := overlay);
      assert endpoints[..] == eps[e := eps[e].(overlay := overlay)];
      assert transfers[..] == xs[x := Retired(xs[x], token)];
    }

    /** The descriptors c of endpoint e's queue are active and linked to each other and to the dummy. */
    static ghost predicate Runnable(m: Memory, v: View, e: int, c: seq<int>)
    {
      && 0 <= e < |m.eps| && |v.owner| == |m.xs| && c != [] && NoDup(c)
      && (forall i :: 0 <= i < |c| ==>
            0 <= c[i] < |m.xs| && v.owner[c[i]].Chained? && Active(m.xs[c[i]].token)
            && QtdAt(m.xs[c[i]].nextQTD) == if i + 1 < |c| then c[i + 1] else m.eps[e].dummyTransfer)
      && 0 <= m.eps[e].dummyTransfer < |m.xs| && m.eps[e].dummyTransfer !in c
      && !Active(m.xs[m.eps[e].dummyTransfer].token)
    }

    /** Since m0 the controller has executed the first k of the descriptors c. */
    static ghost predicate RunTo(m0: Memory, m: Memory, v: View, e: int, c: seq<int>, early: seq<nat>, k: nat)
    {
      && Runnable(m0, v, e, c) && k <= |c| && |m0.xs| == |m.xs| && |m0.eps| == |m.eps|
      && m.eps == m0.eps[e := m0.eps[e].(overlay := m.eps[e].overlay)]
      && QtdAt(m.eps[e].overlay.nextQTD) == (if k < |c| then c[k] else m0.eps[e].dummyTransfer)
      && (forall i :: 0 <= i < |c| ==>
            m.xs[c[i]] == if i < k then Rewritten(m0.xs[c[i]], early, i) else m0.xs[c[i]])
      && (forall x :: 0 <= x < |m0.xs| && x !in c ==> m.xs[x] == m0.xs[x])
    }

    lemma RunStarts(v0: View, xs0: seq<Transfer>, eps0: seq<EndpointState>, txn0: Transaction, e: int, t: int,
                    c: seq<int>, control: bool, early: seq<nat>)
      requires Valid() && Queued(v0, xs0, eps0, txn0, e, t, c, control, []) && e < |v.use| && v.use[e] == Listed
      requires v0.queue[e] == [] && endpoints[e].overlay == eps0[e].overlay
      ensures 0 <= e < endpoints.Length == |eps0|
      ensures if QtdAt(endpoints[e].overlay.nextQTD) == eps0[e].dummyTransfer
              then Early(v0, eps0, e, early) == early && RunTo(M(), M(), v, e, c, early, 0)
              else Queued(v0, xs0, eps0, txn0, e, t, c, control, early)
    {
      hide Ok, Runnable, DescriptorAt, TransferCount;
      QueuedRunnable(v0, xs0, eps0, txn0, e, t, c, control);
    }

    lemma QueuedRunnable(v0: View, xs0: seq<Transfer>, eps0: seq<EndpointState>, txn0: Transaction, e: int, t: int,
                         c: seq<int>, control: bool)
      requires Valid() && Queued(v0, xs0, eps0, txn0, e, t, c, control, []) && e < |v.use| && v.use[e] == Listed
      requires v0.queue[e] == []
      ensures c != [] && Runnable(M(), v, e, c)
    {
      hide FreeOk, ChainsOk, QueuesOk, ListOk, RingOk, KeysOk, DescriptorAt, TransferCount, Active, Chain, ChainOk;
      assert v.queue[e] == [t] && v.chain[t] == c;
      OneQueued(e, t);
      DescriptorsActive(c, endpoints[e].dummyTransfer, t, transactions[t], control, eps0[e].maxPacketSize);
      DescriptorLinks(c, endpoints[e].dummyTransfer, t, transactions[t], control, eps0[e].maxPacketSize);
    }

    lemma OneQueued(e: int, t: int)
      requires Valid() && 0 <= e < endpoints.Length && e < |v.use| && v.use[e] == Listed
      requires e < |v.queue| && v.queue[e] == [t]
      ensures Shape(M(), v) && 0 <= t < |v.chain| && NoDup(v.chain[t]) && v.chain[t] != []
      ensures forall i :: 0 <= i < |v.chain[t]| ==>
        0 <= v.chain[t][i] < |v.owner| && v.owner[v.chain[t][i]] == Chained(t)
      ensures var d := endpoints[e].dummyTransfer;
        0 <= d < transfers.Length && d !in v.chain[t] && !Active(transfers[d].token)
    {
      hide FreeOk, ListOk, RingOk, KeysOk;
      assert QueueOk(M(), v, e);
      assert v.queue[e][0] == t;
      assert ChainOk(transfers[..], v.owner, t, transactions[t], v.chain[t]);
    }

    static lemma DescriptorLinks(c: seq<int>, newDummy: int, t: int, txn: Transaction, control: bool,
                                 maxPacketSize: nat)
      requires |c| == TransferCount(txn.totalLength) && newDummy >= NIL && forall i :: 0 <= i < |c| ==> c[i] >= NIL
      ensures forall k :: 0 <= k < |c| ==>
        QtdAt(DescriptorAt(c, newDummy, t, txn, control, maxPacketSize, k).nextQTD)
        == if k + 1 < |c| then c[k + 1] else newDummy
    {
      hide MakeToken, ToggleAt, BufferPointers;
    }

    static lemma RunNext(m0: Memory, m: Memory, v: View, e: int, c: seq<int>, early: seq<nat>, k: nat)
      requires 0 <= e < |m.eps| && RunTo(m0, m, v, e, c, early, k)
      ensures var x := QtdAt(m.eps[e].overlay.nextQTD);
        && k <= |c| && 0 <= x < |m.xs| && x < |v.owner| && (Active(m.xs[x].token) <==> k < |c|)
        && (k < |c| ==> v.owner[x].Chained?)
    {
      hide Active;
    }

    /** The controller executes the next descriptor. */
    static lemma RunMore(m0: Memory, m: Memory, m': Memory, v: View, e: int, c: seq<int>, early: seq<nat>, k: nat)
      requires RunTo(m0, m, v, e, c, early, k) && k < |c| && k < |early| && 0 <= e < |m.eps| == |m'.eps|
      requires var x := QtdAt(m.eps[e].overlay.nextQTD);
        && 0 <= x < |m.xs| && m'.xs == m.xs[x := Retired(m.xs[x], early[k])]
        && m'.eps == m.eps[e := m.eps[e].(overlay := m'.eps[e].overlay)]
        && m'.eps[e].overlay.nextQTD == m.xs[x].nextQTD
      ensures RunTo(m0, m', v, e, c, early, k + 1)
    {
      hide Active, Retired, QtdAt;
      assert c[k] in c && m.xs[c[k]] == m0.xs[c[k]];
      forall i | 0 <= i < |c|
        ensures m'.xs[c[i]] == if i < k + 1 then Rewritten(m0.xs[c[i]], early, i) else m0.xs[c[i]]
      {
        if i != k { assert c[i] != c[k] && m'.xs[c[i]] == m.xs[c[i]]; }
      }
      assert m'.eps == m0.eps[e := m0.eps[e].(overlay := m'.eps[e].overlay)];
      assert QtdAt(m'.eps[e].overlay.nextQTD) == (if k + 1 < |c| then c[k + 1] else m0.eps[e].dummyTransfer);
      assert forall x :: 0 <= x < |m0.xs| && x !in c ==> m'.xs[x] == m0.xs[x];
    }

    static lemma RunEnds(m0: Memory, m: Memory, v: View, v0: View, xs0: seq<Transfer>, eps0: seq<EndpointState>,
                         txn0: Transaction, e: int, t: int, c: seq<int>, control: bool, early: seq<nat>, k: nat)
      requires QueuedIn(m0, v, v0, xs0, eps0, txn0, e, t, c, control, []) && Early(v0, eps0, e, early) == early
      requires RunTo(m0, m, v, e, c, early, k) && (k == |early| || k == |c|) && m.txns == m0.txns && v0.queue[e] == []
      ensures QueuedIn(m, v, v0, xs0, eps0, txn0, e, t, c, control, early)
      ensures m.eps == m0.eps[e := m0.eps[e].(overlay := m.eps[e].overlay)]
    {
      hide DescriptorAt, TransferCount, Active;
    }

    /** Points the controller at a queue that was empty; when it cannot be stopped or started again,
        takes the submission back. */
    method StartQueue(e: int, t: int, first: int, extraHead: int, newDummy: int, ghost extras: seq<int>,
                      ghost v0: View, ghost v1: View) returns (ok: bool)
      requires Valid() && Settled(v0) && 0 <= e < endpoints.Length && e < |v.use| && v.use[e] == Listed
      requires 0 <= t < |transactions| && e < |v0.queue| && v0.queue[e] == []
      requires Freshly(v0, v1, v, e, t, first, extras, newDummy)
      requires endpoints[e].dummyTransfer == newDummy && transactions[t].first == first
      requires extraHead == (if extras == [] then NIL else extras[0])
      requires CleanOwners(v0.owner, e, t, first, extras, newDummy)
      modifies this`freeAsyncTransferHead, this`v, this`asyncEnabled, this`timedOut, this`running, transfers, endpoints
      ensures Valid()
      ensures ok ==> v == old(v) && OverlayAtQueue(e) && transfers[..] == old(transfers[..])
      ensures ok ==> endpoints[..] == old(endpoints[..])[e := old(endpoints[e]).(overlay := endpoints[e].overlay)]
      ensures !ok ==> v == v0.(free := v.free) && Settled(v) && timedOut
    {
      hide Ok, Settled, OverlayAtQueue, QueueOk, Claimed, Marked, CleanOwners, Reversed;
      Sizes();
      ok := RebuildAsyncQueue(e);
      if !ok {
        ghost var v2 := v;
        Rollback(e, t, first, extraHead, newDummy, extras, v0.owner);
        RolledBack(v0, v1, v2, v, e, t, [first] + extras, v2.owner);
      }
    }

    static lemma RolledBack(v0: View, v1: View, v2: View, v: View, e: int, t: int, c: seq<int>, owner': seq<Owner>)
      requires 0 <= e < |v0.queue| && 0 <= t < |v0.chain| == |v0.home|
      requires v0.chain[t] == [] && v0.home[t] == NIL && v0.queue[e] == []
      requires v1 == v0.(owner := v1.owner, free := v1.free) && v2 == AppendedView(v1, e, t, c, owner')
      requires v == v2.(owner := v0.owner, chain := v2.chain[t := []], home := v2.home[t := NIL],
                        queue := v2.queue[e := []], free := v.free)
      ensures v == v0.(free := v.free)
      ensures Settled(v0) ==> Settled(v)
    {
    }

    /** Allocates the extra cells and the new dummy of a submission of `count` descriptors, or nothing. */
    method GatherCells(count: nat) returns (newDummy: int, head: int, tail: int, ghost extras: seq<int>)
      requires Valid() && count > 0
      modifies this`freeAsyncTransferHead, this`v, transfers
      ensures Valid()
      ensures newDummy == NIL ==>
        v == old(v).(free := v.free) && |old(v).free| < count && KeptInUse(old(v).owner, old(transfers[..]))
      ensures newDummy != NIL ==> |extras| + 1 == count <= |old(v).free|
      ensures newDummy != NIL ==> Ready(old(v), old(transfers[..]), v, transfers[..], head, tail, extras, newDummy)
    {
      hide Ok, Extras, Ready, KeptInUse;
      ghost var v0, xs0 := v, transfers[..];
      var ok;
      ok, head, tail, extras := AllocateExtras(count - 1);
      newDummy := NIL;
      if ok {
        newDummy := AddDummy(head, tail, v0, xs0, extras);
        if newDummy != NIL { ReadySize(v0, xs0, v, transfers[..], head, tail, extras, newDummy); }
      }
    }

    static lemma ReadySize(v0: View, xs0: seq<Transfer>, v: View, xs: seq<Transfer>, head: int, tail: int, cs: seq<int>,
                           newDummy: int)
      requires Ready(v0, xs0, v, xs, head, tail, cs, newDummy)
      ensures |cs| + 1 <= |v0.free|
    {
    }

    /** Allocates the new dummy; without one, gives the extra cells back. */
    method AddDummy(extraHead: int, extraTail: int, ghost v0: View, ghost xs0: seq<Transfer>, ghost extras: seq<int>)
      returns (newDummy: int)
      requires Valid() && Extras(v0, xs0, extraHead, extraTail, extras)
      modifies this`freeAsyncTransferHead, this`v, transfers
      ensures Valid()
      ensures newDummy == NIL ==> v == v0.(free := v.free) && |v0.free| == |extras| && KeptInUse(v0.owner, xs0)
      ensures newDummy != NIL ==> Ready(v0, xs0, v, transfers[..], extraHead, extraTail, extras, newDummy)
    {
      hide Ok, ExtrasOf;
      Sizes();
      ghost var v1, xs := v, transfers[..];
      newDummy := AllocateAsyncTransfer();
      if newDummy == NIL {
        ExtrasSize(v0, xs0, v, xs, extraHead, extraTail, extras);
        GiveBack(extraHead, extraTail, v0, xs0, extras);
        return;
      }
      InitializeTransferDescriptor(newDummy, true);
      ReadyIs(v0, xs0, v1, xs, extraHead, extraTail, extras, newDummy);
      assert transfers[..] == xs[newDummy := Blank(true)];
    }

    // -------------------------------------------------------------- completion

    /** The lengths of the descriptors from a pointer on, added up. */
    method RemainingLength(head: int, ghost cs: seq<int>) returns (sum: nat)
      requires Chain(NextTransfer(transfers[..]), head, cs, NIL)
      ensures forall i :: 0 <= i < |cs| ==> 0 <= cs[i] < transfers.Length
      ensures sum == SumLengths(Gather(transfers[..], cs))
    {
      ghost var xs := transfers[..];
      ChainInPool(NextTransfer(xs), head, cs, NIL);
      var curr := head;
      sum := 0;
      ghost var i := 0;
      ghost var ts := Gather(xs, cs);
      while curr != NIL
        invariant i <= |cs| && Chain(NextTransfer(xs), curr, cs[i..], NIL)
        invariant sum + SumLengths(ts[i..]) == SumLengths(ts)
        decreases |cs| - i
      {
        assert curr == cs[i] && cs[i..][1..] == cs[i + 1..] && ts[i..][1..] == ts[i + 1..];
        sum := sum + transfers[curr].transferLength;
        curr := transfers[curr].nextTransfer;
        i := i + 1;
      }
    }

    /** Judges a transaction by the tokens of its descriptors. */
    method EvaluateAsyncTransaction(t: int) returns (done: bool, status: IOStatus, remainder: nat, repair: bool)
      requires Valid() && 0 <= t < |transactions| == |v.chain| && v.chain[t] != []
      ensures JudgeCells(transfers[..], v.chain[t]) == if done then Done(status, remainder, repair) else Pending
    {
      hide Ok, Judge, Short, HasError, Bytes, Active, TokenStatus, CleanCount, SumResiduals, SumLengths, JudgeCells,
        Gather;
      NoResiduals();
      ghost var xs, c := transfers[..], v.chain[t];
      CellsOf(t);
      ghost var ts := Gather(xs, c);
      var curr := transactions[t].first;
      var lastShort := false;
      done, status, remainder, repair := false, Success, 0, false;
      ghost var i := 0;
      while curr != NIL
        invariant i <= |c| && Chain(NextTransfer(xs), curr, c[i..], NIL)
        invariant i < |c| && remainder == SumResiduals(ts[..i]) && lastShort == (i > 0 && Short(ts[i - 1]))
        invariant forall k :: 0 <= k < i ==> Clean(ts[k])
        decreases |c| - i
      {
        assert curr == c[i] && c[i..][1..] == c[i + 1..];
        GatherAt(xs, c, i);
        var token := transfers[curr].token;
        if Active(token) {
          JudgeAt(ts, i);
          if lastShort {
            var rest := RemainingLength(curr, c[i..]);
            GatherTail(xs, c, i);
            return true, Success, remainder + rest, true;
          }
          return;
        }
        remainder := remainder + Bytes(token);
        ResidualsMore(ts, i);
        if HasError(token) {
          JudgeAt(ts, i);
          var rest := RemainingLength(transfers[curr].nextTransfer, c[i + 1..]);
          GatherTail(xs, c, i + 1);
          return true, TokenStatus(token), remainder + rest, true;
        }
        lastShort := Short(transfers[curr]);
        if curr == transactions[t].last {
          JudgeAt(ts, i + 1);
          return true, Success, remainder, lastShort;
        }
        curr := transfers[curr].nextTransfer;
        i := i + 1;
      }
    }

    lemma CellsOf(t: int)
      requires Valid() && 0 <= t < |transactions| == |v.chain| && v.chain[t] != []
      ensures var c := v.chain[t];
        && (forall i :: 0 <= i < |c| ==> 0 <= c[i] < transfers.Length)
        && Chain(NextTransfer(transfers[..]), transactions[t].first, c, NIL)
        && (forall i :: 0 <= i < |c| ==> (c[i] == transactions[t].last <==> i == |c| - 1))
        && JudgeCells(transfers[..], c) == Judge(Gather(transfers[..], c))
    {
      hide FreeOk, QueuesOk, ListOk, RingOk, KeysOk, PieceOk;
      assert ChainOk(M().xs, v.owner, t, M().txns[t], v.chain[t]);
    }

    static lemma GatherAt(xs: seq<Transfer>, c: seq<int>, i: nat)
      requires i < |c| && forall k :: 0 <= k < |c| ==> 0 <= c[k] < |xs|
      ensures Gather(xs, c)[i] == xs[c[i]]
    {
    }

    static lemma GatherTail(xs: seq<Transfer>, c: seq<int>, i: nat)
      requires i <= |c| && forall k :: 0 <= k < |c| ==> 0 <= c[k] < |xs|
      ensures forall k :: 0 <= k < |c[i..]| ==> 0 <= c[i..][k] < |xs|
      ensures Gather(xs, c[i..]) == Gather(xs, c)[i..]
    {
    }

    static lemma NoResiduals()
      ensures SumResiduals([]) == 0
    {
    }

    static lemma ResidualsMore(ts: seq<Transfer>, i: nat)
      requires i < |ts|
      ensures SumResiduals(ts[..i + 1]) == SumResiduals(ts[..i]) + Bytes(ts[i].token)
    {
      hide Bytes;
      SumResidualsConcat(ts[..i], [ts[i]]);
      assert ts[..i + 1] == ts[..i] + [ts[i]];
      assert [ts[i]][1..] == [];
    }

    static lemma CleanCountIs(ts: seq<Transfer>, i: nat)
      requires i <= |ts| && (forall k :: 0 <= k < i ==> Clean(ts[k])) && (i < |ts| ==> !Clean(ts[i]))
      ensures CleanCount(ts) == i
      decreases i
    {
    }

    /** The verdict once the first i descriptors are clean and the next one, if any, is not. */
    static lemma JudgeAt(ts: seq<Transfer>, i: nat)
      requires i <= |ts| && ts != [] && (forall k :: 0 <= k < i ==> Clean(ts[k])) && (i < |ts| ==> !Clean(ts[i]))
      ensures i == |ts| ==> Judge(ts) == Done(Success, SumResiduals(ts[..i]), Short(ts[i - 1]))
      ensures i < |ts| && Active(ts[i].token) ==>
        Judge(ts) == if i > 0 && Short(ts[i - 1])
                     then Done(Success, SumResiduals(ts[..i]) + SumLengths(ts[i..]), true) else Pending
      ensures i < |ts| && !Active(ts[i].token) ==>
        Judge(ts) == Done(TokenStatus(ts[i].token), SumResiduals(ts[..i + 1]) + SumLengths(ts[i + 1..]), true)
    {
      hide Short, HasError, Bytes, Active, TokenStatus;
      CleanCountIs(ts, i);
    }

    /** Takes the head transaction of a queue and returns it. */
    method DetachHead(e: int) returns (t: int)
      requires Valid() && 0 <= e < endpoints.Length == |v.queue| && e < |v.use| && v.use[e] == Listed
        && v.queue[e] != []
      modifies this`v, endpoints
      ensures Valid() && t == old(v).queue[e][0] && 0 <= t < |transactions| == |v.home| == |v.chain|
      ensures v == old(v).(queue := old(v).queue[e := old(v).queue[e][1..]], home := old(v).home[t := NIL])
      ensures endpoints[..] == old(endpoints[..])[e := endpoints[e]]
      ensures endpoints[e] == old(endpoints[e]).(
                transactionHead := endpoints[e].transactionHead, transactionTail := endpoints[e].transactionTail)
      ensures endpoints[e].transactionHead == NIL <==> v.queue[e] == []
      ensures old(v).chain[t] != [] && v.home[t] == NIL
    {
      hide Ok, QueueOk, Detached;
      ghost var m0, v0, q := M(), v, v.queue[e];
      Sizes();
      QueueFacts(e);
      t := endpoints[e].transactionHead;
      ChainLink(NextTransaction(transactions), t, q, NIL, 0);
      DetachKeeps(m0, v, e, 1);
      DetachFirst(v, e);
      endpoints[e] := endpoints[e].(transactionHead := transactions[t].next);
      if endpoints[e].transactionHead == NIL {
        endpoints[e] := endpoints[e].(transactionTail := NIL);
      }
      v := Detached(v, e, 1);
      assert endpoints[..] == m0.eps[e := endpoints[e]];
      assert M() == Advanced(m0, v0, e, 1);
    }

    static lemma DetachFirst(v: View, e: int)
      requires 0 <= e < |v.queue| && v.queue[e] != [] && 0 <= v.queue[e][0] < |v.home|
      ensures Detached(v, e, 1) == v.(queue := v.queue[e := v.queue[e][1..]], home := v.home[v.queue[e][0] := NIL])
    {
    }

    /** Takes the head transaction off a queue, whose verdict is given, reports it and frees it.  The
        bytes to hand to the client, the length less the remainder, are never negative. */
    method CompleteHead(e: int, status: IOStatus, remainder: nat, repair: bool)
      requires Valid() && Settled(v) && 0 <= e < endpoints.Length == |v.queue| && e < |v.use| && v.use[e] == Listed
      requires v.queue[e] != [] && 0 <= v.queue[e][0] < |v.chain|
      requires JudgeCells(transfers[..], v.chain[v.queue[e][0]]) == Done(status, remainder, repair)
      modifies this`freeAsyncTransferHead, this`v, this`asyncEnabled, this`timedOut, this`running, this`log,
        transfers, endpoints
      ensures Valid() && Settled(v)
      ensures 0 <= old(v).queue[e][0] < |old(v).home|
      ensures var t := old(v).queue[e][0];
        v == ReleasedView(old(v).(queue := old(v).queue[e := old(v).queue[e][1..]], home := old(v).home[t := NIL]), t)
      ensures var t := old(v).queue[e][0];
        0 <= t < |transactions| && log == old(log) + Report(t, transactions[t], status, remainder)
      ensures repair || v.queue[e] == [] ==> OverlayAtQueue(e) || timedOut
      ensures !repair && v.queue[e] != [] ==> endpoints[e].overlay == old(endpoints[e].overlay)
      ensures endpoints[e].dummyTransfer == old(endpoints[e].dummyTransfer)
      ensures forall f :: 0 <= f < endpoints.Length && f != e ==> endpoints[f] == old(endpoints[f])
      ensures |old(v).owner| == transfers.Length && forall x ::
        0 <= x < transfers.Length && old(v).owner[x] != Chained(old(v).queue[e][0]) ==>
          transfers[x] == old(transfers[x])
      ensures !timedOut ==> PlacesKept(old(M()), old(v), M(), v, e) && PlaceLeft(old(M()), old(v), e, repair)
      ensures old(timedOut) ==> timedOut
    {
      hide Ok, Settled, QueueOk, Judge, JudgeCells, Freed, Reversed, RebuiltToken, PlacesKept, PlaceLeft, NoneRetired,
        KeptInUse;
      ghost var m0, v0 := M(), v;
      QueueFacts(e);
      BytesMoved(v.queue[e][0]);
      var t := TakeHead(e, repair);
      var bytes: nat := transactions[t].totalLength - remainder;
      log := log + Report(t, transactions[t], status, remainder);
      ReleaseAsyncTransaction(t);
      SettledReleased(v0, e, t);
      if !timedOut { CompletedPlaces(m0, v0, e, status, remainder, repair); }
    }

    /** The controller in the queue of endpoint e after its head transaction is completed: restarted there if
        that asked for repair or was the last, in its place exactly if nothing left has retired; otherwise
        where it was, in its place if it had one. */
    ghost predicate PlaceLeft(m0: Memory, v0: View, e: int, repair: bool)
      reads this, transfers, endpoints
    {
      && Shape(m0, v0) && Shape(M(), v) && 0 <= e < |m0.eps| == endpoints.Length && v0.queue[e] != []
      && if repair || |v0.queue[e]| == 1
         then Stands(M(), v, e) && (HasPlace(M(), v, e) <==> NoneRetired(m0.xs, v0.chain, v0.queue[e][1..]))
         else HasPlace(m0, v0, e) ==> HasPlace(M(), v, e)
    }

    /** Takes the head transaction off a queue, and restarts the controller there when asked to or when
        nothing is left. */
    method TakeHead(e: int, repair: bool) returns (t: int)
      requires Valid() && 0 <= e < endpoints.Length == |v.queue| && e < |v.use| && v.use[e] == Listed
        && v.queue[e] != []
      modifies this`v, this`asyncEnabled, this`timedOut, this`running, endpoints
      ensures Valid() && t == old(v).queue[e][0] && 0 <= t < |transactions| == |v.home| == |v.chain|
      ensures v == old(v).(queue := old(v).queue[e := old(v).queue[e][1..]], home := old(v).home[t := NIL])
      ensures old(v).chain[t] != [] && v.home[t] == NIL
      ensures repair || v.queue[e] == [] ==> OverlayAtQueue(e) || timedOut
      ensures !repair && v.queue[e] != [] ==> endpoints[e].overlay == old(endpoints[e].overlay)
      ensures endpoints[e].dummyTransfer == old(endpoints[e].dummyTransfer)
      ensures forall f :: 0 <= f < endpoints.Length && f != e ==> endpoints[f] == old(endpoints[f])
      ensures old(timedOut) ==> timedOut
    {
      hide Ok, QueueOk, OverlayAtQueue, RebuiltToken;
      t := DetachHead(e);
      if repair || endpoints[e].transactionHead == NIL {
        var ok := RebuildAsyncQueue(e);
      }
    }

    lemma BytesMoved(t: int)
      requires Valid() && 0 <= t < |transactions| == |v.chain| && v.chain[t] != []
      requires JudgeCells(transfers[..], v.chain[t]).Done?
      ensures JudgeCells(transfers[..], v.chain[t]).remainder <= transactions[t].totalLength
    {
      hide Ok, Judge;
      TransferredBytes(M(), v, t);
    }

    static lemma SettledReleased(v: View, e: int, t: int)
      requires Settled(v) && 0 <= e < |v.queue| && v.queue[e] != [] && 0 <= t < |v.chain| == |v.home|
      ensures Settled(ReleasedView(v.(queue := v.queue[e := v.queue[e][1..]], home := v.home[t := NIL]), t))
    {
    }

    /** The verdicts on the queued transactions are still ds. */
    ghost predicate Frozen(ds: seq<Verdict>)
      reads this`v, this`transfers, transfers
    {
      |ds| == |v.home| == |v.chain|
      && forall t :: 0 <= t < |ds| && v.home[t] != NIL ==> ds[t] == JudgeCells(transfers[..], v.chain[t])
    }

    /** The first listed endpoint whose head transaction is finished, with the verdict on it. */
    method FindFinished(ghost ds: seq<Verdict>)
      returns (e: int, ghost i: nat, done: bool, status: IOStatus, remainder: nat, repair: bool)
      requires Valid() && Frozen(ds)
      ensures !done ==> NothingDone(ds, v.queue, v.listed)
      ensures done ==> i < |v.listed| && e == v.listed[i] && 0 <= e < endpoints.Length == |v.queue| == |v.use|
      ensures done ==> v.use[e] == Listed && v.queue[e] != [] && 0 <= v.queue[e][0] < |ds|
      ensures done ==> ds[v.queue[e][0]] == Done(status, remainder, repair)
      ensures done ==> v.home[v.queue[e][0]] == e && NothingDone(ds, v.queue, v.listed[..i])
    {
      hide Ok, QueueOk, JudgeCells, Verdicts;
      Sizes();
      ListFacts();
      e, i, done, status, remainder, repair := endpointStateHead, 0, false, Success, 0, false;
      while e != NIL
        invariant i <= |v.listed| && e == if i < |v.listed| then v.listed[i] else NIL
        invariant !done && NothingDone(ds, v.queue, v.listed[..i])
        decreases |v.listed| - i
      {
        QueueFacts(e);
        var t := endpoints[e].transactionHead;
        var next := endpoints[e].nextEndpoint;
        if t != NIL {
          done, status, remainder, repair := EvaluateAsyncTransaction(t);
          if done {
            return;
          }
        }
        ChainLink(NextEndpoint(endpoints[..]), endpointStateHead, v.listed, NIL, i);
        NothingMore(ds, v.queue, v.listed, i);
        e := next;
        i := i + 1;
      }
      assert v.listed[..i] == v.listed;
    }

    static lemma NothingMore(ds: seq<Verdict>, queue: seq<seq<int>>, listed: seq<int>, i: nat)
      requires i < |listed| && NothingDone(ds, queue, listed[..i]) && 0 <= listed[i] < |queue|
      requires queue[listed[i]] != [] ==> !Finished(ds, queue[listed[i]][0])
      ensures NothingDone(ds, queue, listed[..i + 1])
    {
    }

    /** Verdicts on other transactions do not change when one is freed. */
    lemma FrozenStays(ds: seq<Verdict>, v0: View, xs0: seq<Transfer>, eps0: seq<EndpointState>,
                      txns0: seq<Transaction>, e: int, t: int)
      requires Shape(Memory(xs0, eps0, txns0, NIL, NIL, NIL, 0), v0)
      requires ChainsOk(Memory(xs0, eps0, txns0, NIL, NIL, NIL, 0), v0)
      requires |ds| == |v0.home| && |xs0| == transfers.Length && 0 <= e < |v0.queue| && 0 <= t < |v0.home|
        && v0.queue[e] != []
      requires forall u :: 0 <= u < |ds| && v0.home[u] != NIL ==> ds[u] == JudgeCells(xs0, v0.chain[u])
      requires v == ReleasedView(v0.(queue := v0.queue[e := v0.queue[e][1..]], home := v0.home[t := NIL]), t)
      requires forall x :: 0 <= x < transfers.Length && v0.owner[x] != Chained(t) ==> transfers[x] == xs0[x]
      ensures Frozen(ds)
    {
      hide ChainsOk, Judge, Freed, Reversed;
      forall u | 0 <= u < |ds| && v.home[u] != NIL ensures ds[u] == JudgeCells(transfers[..], v.chain[u]) {
        ChainMembers(Memory(xs0, eps0, txns0, NIL, NIL, NIL, 0), v0, u);
        var c := v0.chain[u];
        assert forall i :: 0 <= i < |c| ==> c[i] in c;
        SameCells(xs0, transfers[..], c);
      }
    }

    static lemma SameCells(xs: seq<Transfer>, xs': seq<Transfer>, c: seq<int>)
      requires |xs'| == |xs| && forall i :: 0 <= i < |c| ==> 0 <= c[i] < |xs| && xs'[c[i]] == xs[c[i]]
      ensures JudgeCells(xs', c) == JudgeCells(xs, c)
    {
      hide Judge;
      assert Gather(xs', c) == Gather(xs, c);
    }

    /** Completes the transaction at position i of the list, the first finished one. */
    method CompleteFirst(e: int, ghost i: nat, status: IOStatus, remainder: nat, repair: bool, ghost ds: seq<Verdict>,
                         ghost m0: Memory, ghost v0: View)
      requires Valid() && Settled(v) && Frozen(ds)
      requires i < |v.listed| && e == v.listed[i] && 0 <= e < endpoints.Length == |v.queue| == |v.use|
      requires v.use[e] == Listed && v.queue[e] != [] && 0 <= v.queue[e][0] < |ds| == |transactions|
      requires ds[v.queue[e][0]] == Done(status, remainder, repair)
      requires v.home[v.queue[e][0]] == e && NothingDone(ds, v.queue, v.listed[..i])
      modifies this`freeAsyncTransferHead, this`v, this`asyncEnabled, this`timedOut, this`running, this`log,
        transfers, endpoints
      ensures Valid() && Settled(v) && Frozen(ds)
      ensures v.listed == old(v).listed && v.use == old(v).use && |v.queue| == |old(v).queue|
      ensures log + AllDelivered(ds, transactions, v.queue, v.listed)
        == old(log) + AllDelivered(ds, transactions, old(v).queue, old(v).listed)
      ensures TotalQueued(v.queue, v.listed) < TotalQueued(old(v).queue, old(v).listed)
      ensures forall f :: 0 <= f < |v.queue| ==> Undone(ds, v.queue[f]) == Undone(ds, old(v).queue[f])
      ensures old(timedOut || Drained(ds, m0, v0, M(), v)) ==> timedOut || Drained(ds, m0, v0, M(), v)
    {
      hide Ok, Settled, JudgeCells, AllDelivered, TotalQueued, NothingDone, Undone, Freed, Reversed, ChainsOk, Report,
        Drained, NoneRetired, PlacesKept, PlaceLeft;
      ghost var m1, v1, xs1, eps1 := M(), v, transfers[..], endpoints[..];
      ListFacts();
      ChainsHold();
      DeliverOne(ds, transactions, v.queue, v.listed, i);
      UndoneFront(ds, v.queue[e]);
      CompleteHead(e, status, remainder, repair);
      FrozenStays(ds, v1, xs1, eps1, transactions, e, v1.queue[e][0]);
      if !timedOut && Drained(ds, m0, v0, m1, v1) { DrainedMore(ds, m0, v0, m1, v1, e); }
    }

    lemma DrainedMore(ds: seq<Verdict>, m0: Memory, v0: View, m1: Memory, v1: View, e: int)
      requires Ok(m1, v1) && Valid() && Drained(ds, m0, v0, m1, v1) && 0 <= e < |m1.eps| == endpoints.Length
      requires v1.use[e] == Listed && v1.queue[e] != [] && 0 <= v1.queue[e][0] < |v1.chain|
      requires Finished(ds, v1.queue[e][0]) && m1.txns == transactions && |m1.xs| == transfers.Length
      requires var t := v1.queue[e][0];
        v == ReleasedView(v1.(queue := v1.queue[e := v1.queue[e][1..]], home := v1.home[t := NIL]), t)
      requires forall x :: 0 <= x < |m1.xs| && v1.owner[x] != Chained(v1.queue[e][0]) ==> transfers[x] == m1.xs[x]
      requires endpoints[e].dummyTransfer == m1.eps[e].dummyTransfer
      requires forall f :: 0 <= f < |m1.eps| && f != e ==> endpoints[f] == m1.eps[f]
      requires if NeedsRepair(ds, v1.queue[e][0]) || v.queue[e] == [] then OverlayAtQueue(e)
               else endpoints[e].overlay == m1.eps[e].overlay
      ensures Drained(ds, m0, v0, M(), v)
    {
      hide FreeOk, ChainsOk, ListOk, RingOk, KeysOk, Reversed, Freed, Shortened, QueueOk, Drained, NeedsRepair;
      DrainStep(ds, m0, v0, m1, v1, M(), v, e);
    }

    lemma ChainsHold()
      requires Valid()
      ensures Shape(Memory(transfers[..], endpoints[..], transactions, NIL, NIL, NIL, 0), v)
      ensures ChainsOk(Memory(transfers[..], endpoints[..], transactions, NIL, NIL, NIL, 0), v)
    {
    }

    /** Completes finished head transactions until none is left, as long as the controller writes no
        token: every endpoint's finished transactions are reported once each, in submission order. */
    method CompleteAsyncTransactions()
      requires Valid() && Settled(v)
      modifies this`freeAsyncTransferHead, this`v, this`asyncEnabled, this`timedOut, this`running, this`log,
        transfers, endpoints
      ensures Valid() && Settled(v)
      ensures v.listed == old(v).listed && v.use == old(v).use && |v.queue| == |old(v).queue| == |v.use|
      ensures |old(v).chain| == |transactions|
      ensures log == old(log) + AllDelivered(old(Verdicts(transfers[..], v.chain)), transactions, old(v).queue,
                                             old(v).listed)
      ensures forall f :: 0 <= f < |v.queue| ==>
        v.queue[f] == Undone(old(Verdicts(transfers[..], v.chain)), old(v).queue[f])
      ensures NothingDone(Verdicts(transfers[..], v.chain), v.queue, v.listed)
      ensures !timedOut ==> FatesAre(old(Verdicts(transfers[..], v.chain)), old(M()), old(v))
    {
      hide Ok, Settled, JudgeCells, AllDelivered, TotalQueued, NothingDone, Undone, QueueOk, Drained,
        FatesAre;
      Sizes();
      ghost var ds := Verdicts(transfers[..], v.chain);
      ghost var m0, v0, log0 := M(), v, log;
      DrainStarts(ds, m0, v0);
      var restart := true;
      while restart
        invariant Valid() && Settled(v) && Frozen(ds)
        invariant v.listed == v0.listed && v.use == v0.use && |v.queue| == |v0.queue|
        invariant log + AllDelivered(ds, transactions, v.queue, v.listed)
          == log0 + AllDelivered(ds, transactions, v0.queue, v0.listed)
        invariant forall f :: 0 <= f < |v.queue| ==> Undone(ds, v.queue[f]) == Undone(ds, v0.queue[f])
        invariant timedOut || Drained(ds, m0, v0, M(), v)
        invariant !restart ==> NothingDone(ds, v.queue, v.listed)
        decreases TotalQueued(v.queue, v.listed), restart
      {
        restart := false;
        var e, status, remainder, repair;
        ghost var i;
        e, i, restart, status, remainder, repair := FindFinished(ds);
        if restart {
          CompleteFirst(e, i, status, remainder, repair, ds, m0, v0);
        }
      }
      NothingDelivered(ds, transactions, v.queue, v.listed);
      AllUndone(ds);
      HeadsPending(ds);
      if !timedOut { AllFates(ds, m0, v0); }
    }

    /** Where completing the finished transactions of all queues has left the controller, in terms of the
        verdicts, the queues and its places before: in every queue in which it stood. */
    ghost predicate FatesAre(ds: seq<Verdict>, m0: Memory, v0: View)
      reads this`transfers, this`endpoints, this`transactions, this`freeAsyncTransferHead,
        this`freeEndpointStateHead, this`endpointStateHead, this`headNextQH, this`v, transfers, endpoints
    {
      && Shape(m0, v0) && Shape(M(), v) && |m0.eps| == endpoints.Length
      && forall f :: 0 <= f < |v0.use| && v0.use[f] == Listed && Stands(m0, v0, f) ==>
           (var q := v0.queue[f]; var n := |q| - |v.queue[f]|;
            && (AtFree(M(), v, f) <==> Strands(ds, v0.chain, q, n, QtdAt(m0.eps[f].overlay.nextQTD)))
            && (Stands(M(), v, f) <==> !AtFree(M(), v, f))
            && (HasPlace(M(), v, f) <==> LeavesPlace(ds, m0.xs, v0.chain, q, n, HasPlace(m0, v0, f))))
    }

    lemma AllFates(ds: seq<Verdict>, m0: Memory, v0: View)
      requires Ok(m0, v0) && Valid() && Drained(ds, m0, v0, M(), v) && ds == Verdicts(m0.xs, v0.chain)
      ensures FatesAre(ds, m0, v0)
    {
      hide FreeOk, ChainsOk, QueuesOk, ListOk, RingOk, KeysOk, HasPlace, Stands, AtFree, Strands, LeavesPlace, Verdicts,
        Gone, Shortened;
      forall f | 0 <= f < |v0.use| && v0.use[f] == Listed && Stands(m0, v0, f)
        ensures var q := v0.queue[f]; var n := |q| - |v.queue[f]|;
          && (AtFree(M(), v, f) <==> Strands(ds, v0.chain, q, n, QtdAt(m0.eps[f].overlay.nextQTD)))
          && (Stands(M(), v, f) <==> !AtFree(M(), v, f))
          && (HasPlace(M(), v, f) <==> LeavesPlace(ds, m0.xs, v0.chain, q, n, HasPlace(m0, v0, f)))
      {
        Fates(ds, m0, v0, M(), v, f);
      }
    }

    lemma AllUndone(ds: seq<Verdict>)
      requires Valid() && NothingDone(ds, v.queue, v.listed)
      ensures forall f :: 0 <= f < |v.queue| ==> Undone(ds, v.queue[f]) == v.queue[f]
    {
      hide FreeOk, ChainsOk, RingOk, KeysOk, QueueOk, Finished;
      forall f | 0 <= f < |v.queue| ensures Undone(ds, v.queue[f]) == v.queue[f] {
        if v.use[f] == Listed { assert f in v.listed; }
      }
    }

    lemma HeadsPending(ds: seq<Verdict>)
      requires Valid() && Frozen(ds) && NothingDone(ds, v.queue, v.listed)
      ensures NothingDone(Verdicts(transfers[..], v.chain), v.queue, v.listed)
    {
      hide Ok, JudgeCells, QueueOk;
      Sizes();
      ListFacts();
      forall i | 0 <= i < |v.listed| && 0 <= v.listed[i] < |v.queue| && v.queue[v.listed[i]] != []
        ensures !Finished(Verdicts(transfers[..], v.chain), v.queue[v.listed[i]][0])
      {
        QueueFacts(v.listed[i]);
      }
    }

    // -------------------------------------------------------------- aborting

    /** Nothing but the transactions ts and their cells changed, and those are free. */
    ghost predicate OnlyFreed(v0: View, xs0: seq<Transfer>, ts: seq<int>)
      reads this`v, this`transfers, transfers
    {
      && |v.chain| == |v0.chain| == |v.home| == |v0.home| && |v.owner| == |v0.owner| == |xs0| == transfers.Length
      && v.use == v0.use && v.listed == v0.listed && v.idle == v0.idle
      && (forall t :: 0 <= t < |v.chain| && t !in ts ==> v.chain[t] == v0.chain[t] && v.home[t] == v0.home[t])
      && (forall t :: 0 <= t < |v.chain| && t in ts ==> v.chain[t] == [] && v.home[t] == NIL)
      && (forall x :: 0 <= x < |v.owner| ==>
            v.owner[x] == if v0.owner[x].Chained? && v0.owner[x].transaction in ts then Free else v0.owner[x])
      && (forall x :: 0 <= x < |v.owner| && InUse(v0.owner[x]) && v.owner[x] != Free ==> transfers[x] == xs0[x])
    }

    /** Takes all transactions off a queue and returns the first. */
    method DetachAll(e: int) returns (t: int)
      requires Valid() && 0 <= e < endpoints.Length == |v.queue| && e < |v.use| && v.use[e] == Listed
      modifies this`v, endpoints
      ensures Valid() && v == Detached(old(v), e, |old(v).queue[e]|) && t == old(endpoints[e]).transactionHead
      ensures endpoints[..] == old(endpoints[..])[e := old(endpoints[e]).(
                transactionHead := NIL, transactionTail := NIL)]
    {
      hide Ok, Detached, QueueOk;
      ghost var m0, v0 := M(), v;
      DetachKeeps(m0, v, e, |v.queue[e]|);
      t := endpoints[e].transactionHead;
      endpoints[e] := endpoints[e].(transactionHead := NIL);
      endpoints[e] := endpoints[e].(transactionTail := NIL);
      v := Detached(v, e, |v.queue[e]|);
      assert M() == Advanced(m0, v0, e, |v0.queue[e]|);
    }

    /** Reports and frees the detached transactions ts, linked from head. */
    method ReleaseAborted(head: int, status: IOStatus, ghost ts: seq<int>)
      requires Valid() && Chain(NextTransaction(transactions), head, ts, NIL) && NoDup(ts)
      requires forall i :: 0 <= i < |ts| ==> 0 <= ts[i] < |transactions| == |v.home| == |v.chain|
      requires forall i :: 0 <= i < |ts| ==> v.home[ts[i]] == NIL && v.chain[ts[i]] != []
      modifies this`freeAsyncTransferHead, this`v, this`log, transfers
      ensures Valid() && v == ReleasedAll(old(v), ts) && log == old(log) + Abortions(transactions, ts, status)
      ensures Kept(old(v), old(transfers[..]), ts)
    {
      hide Ok, Report, Freed, ReleasedView, Abortions, ReleasedAll, Spared, KeptIn;
      ghost var v0, xs0, log0 := v, transfers[..], log;
      Sizes();
      NoneReleased(v, transactions, status);
      var t := head;
      ghost var i := 0;
      while t != NIL
        invariant i <= |ts| && Valid() && Chain(NextTransaction(transactions), t, ts[i..], NIL)
        invariant v == ReleasedAll(v0, ts[..i]) && log == log0 + Abortions(transactions, ts[..i], status)
        invariant Kept(v0, xs0, ts[..i])
        decreases |ts| - i
      {
        assert t == ts[i] && ts[i..][1..] == ts[i + 1..];
        Released(v0, ts, i);
        var next := transactions[t].next;
        log := log + Report(t, transactions[t], status, transactions[t].totalLength);
        AbortionsMore(transactions, ts, i, status);
        ghost var v1, xs1 := v, transfers[..];
        ReleaseAsyncTransaction(t);
        KeptMore(v0, xs0, v1, xs1, ts, i);
        t := next;
        i := i + 1;
      }
      assert ts[..i] == ts;
    }

    lemma NoneReleased(v: View, txns: seq<Transaction>, status: IOStatus)
      requires |v.owner| == transfers.Length
      ensures ReleasedAll(v, []) == v && Abortions(txns, [], status) == [] && Kept(v, transfers[..], [])
    {
    }

    lemma KeptMore(v0: View, xs0: seq<Transfer>, v1: View, xs1: seq<Transfer>, ts: seq<int>, i: nat)
      requires i < |ts| && |xs1| == transfers.Length == |v1.owner|
      requires KeptIn(v0, xs0, xs1, ts[..i])
      requires forall x :: Spared(v0, ts[..i + 1], x) ==> v1.owner[x] != Chained(ts[i]) && Spared(v0, ts[..i], x)
      requires forall x :: 0 <= x < transfers.Length && v1.owner[x] != Chained(ts[i]) ==> transfers[x] == xs1[x]
      ensures Kept(v0, xs0, ts[..i + 1])
    {
    }

    /** The cells in use outside transactions ts are unchanged. */
    ghost predicate Kept(v0: View, xs0: seq<Transfer>, ts: seq<int>)
      reads this`transfers, transfers
    {
      KeptIn(v0, xs0, transfers[..], ts)
    }

    static ghost predicate KeptIn(v0: View, xs0: seq<Transfer>, xs: seq<Transfer>, ts: seq<int>)
    {
      |v0.owner| == |xs0| == |xs| && forall x :: Spared(v0, ts, x) ==> xs[x] == xs0[x]
    }

    /** Cell x is in use and not part of any transaction in ts. */
    static ghost predicate Spared(v: View, ts: seq<int>, x: int)
    {
      0 <= x < |v.owner| && InUse(v.owner[x]) && (v.owner[x].Chained? ==> v.owner[x].transaction !in ts)
    }

    static lemma Released(v: View, ts: seq<int>, i: nat)
      requires i < |ts| && NoDup(ts) && forall k :: 0 <= k < |ts| ==> 0 <= ts[k] < |v.chain|
      ensures forall k :: 0 <= k < i ==> 0 <= ts[..i][k] < |v.chain|
      ensures var v' := ReleasedAll(v, ts[..i]);
        && ReleasedAll(v, ts[..i + 1]) == ReleasedView(v', ts[i])
        && v'.chain[ts[i]] == v.chain[ts[i]] && v'.home == v.home && |v'.owner| == |v.owner|
        && (forall x :: Spared(v, ts[..i + 1], x) ==> v'.owner[x] != Chained(ts[i]) && Spared(v, ts[..i], x))
    {
      assert ts[..i + 1][..i] == ts[..i];
      assert ts[..i + 1] == ts[..i] + [ts[i]];
      ReleasedFacts(v, ts[..i]);
    }

    static lemma AbortionsMore(txns: seq<Transaction>, ts: seq<int>, i: nat, status: IOStatus)
      requires i < |ts| && 0 <= ts[i] < |txns|
      ensures Abortions(txns, ts[..i + 1], status)
        == Abortions(txns, ts[..i], status) + Report(ts[i], txns[ts[i]], status, txns[ts[i]].totalLength)
    {
      assert ts[..i + 1][..i] == ts[..i];
    }

    /** Ends every transaction of an endpoint with the given status, in submission order. */
    method AbortEndpointTransactions(e: int, status: IOStatus)
      requires Valid() && Settled(v) && 0 <= e < endpoints.Length == |v.queue| && e < |v.use| && v.use[e] == Listed
      modifies this`freeAsyncTransferHead, this`v, this`asyncEnabled, this`timedOut, this`running, this`log,
        transfers, endpoints
      ensures Valid() && Settled(v)
      ensures log == old(log) + Abortions(transactions, old(v).queue[e], status)
      ensures v.queue == old(v).queue[e := []] && OnlyFreed(old(v), old(transfers[..]), old(v).queue[e])
      ensures forall f :: 0 <= f < endpoints.Length && f != e ==> endpoints[f] == old(endpoints[f])
      ensures SameKey(endpoints[e], old(endpoints[e])) && endpoints[e].nextEndpoint == old(endpoints[e]).nextEndpoint
      ensures endpoints[e].dummyTransfer == old(endpoints[e]).dummyTransfer
      ensures old(v).queue[e] != [] ==> OverlayAtQueue(e) || timedOut
      ensures !timedOut ==> PlacesKept(old(M()), old(v), M(), v, NIL)
    {
      hide Ok, Settled, QueueOk, Detached, ReleasedAll, OnlyFreed, Abortions, OverlayAtQueue, RebuiltToken, PlacesKept;
      PlacesSame(M(), v);
      ghost var m0, v0, xs0, q := M(), v, transfers[..], v.queue[e];
      Sizes();
      QueueFacts(e);
      if endpoints[e].transactionHead == NIL {
        NothingFreed(e, status);
        return;
      }
      var t := DetachAll(e);
      AllDetached(v0, e);
      var ok := RebuildAsyncQueue(e);
      OverlayEmpty(e);
      ReleaseAborted(t, status, q);
      AllFreed(v0, xs0, e);
      OverlayEmpty(e);
      if !timedOut { AbortedPlaces(m0, v0, e); }
    }

    lemma OverlayEmpty(e: int)
      requires Valid() && 0 <= e < endpoints.Length && e < |v.queue| && v.queue[e] == []
      ensures OverlayAtQueue(e) <==>
        endpoints[e].dummyTransfer >= NIL && endpoints[e].overlay.nextQTD == QtdPhys(endpoints[e].dummyTransfer)
    {
    }

    lemma NothingFreed(e: int, status: IOStatus)
      requires Valid() && 0 <= e < |v.queue| && v.queue[e] == [] && |v.chain| == |v.home|
        && |v.owner| == transfers.Length
      ensures OnlyFreed(v, transfers[..], v.queue[e]) && Abortions(transactions, v.queue[e], status) == []
    {
      hide Ok;
    }

    static lemma AllDetached(v: View, e: int)
      requires 0 <= e < |v.queue|
      ensures var v' := Detached(v, e, |v.queue[e]|);
        && v' == v.(queue := v.queue[e := []], home := v'.home) && |v'.home| == |v.home|
        && (forall t :: 0 <= t < |v.home| ==> v'.home[t] == if t in v.queue[e] then NIL else v.home[t])
    {
      assert v.queue[e][..|v.queue[e]|] == v.queue[e] && v.queue[e][|v.queue[e]|..] == [];
    }

    lemma AllFreed(v0: View, xs0: seq<Transfer>, e: int)
      requires 0 <= e < |v0.queue| && |v0.home| == |v0.chain|
      requires forall i :: 0 <= i < |v0.queue[e]| ==> 0 <= v0.queue[e][i] < |v0.chain|
      requires v == ReleasedAll(Detached(v0, e, |v0.queue[e]|), v0.queue[e])
      requires Kept(v0, xs0, v0.queue[e])
      ensures v.queue == v0.queue[e := []] && (Settled(v0) ==> Settled(v))
      ensures OnlyFreed(v0, xs0, v0.queue[e])
    {
      hide ReleasedAll, Detached;
      AllDetached(v0, e);
      ReleasedFacts(Detached(v0, e, |v0.queue[e]|), v0.queue[e]);
      forall x | 0 <= x < |v.owner| && InUse(v0.owner[x]) && v.owner[x] != Free ensures transfers[x] == xs0[x] {
        assert Spared(v0, v0.queue[e], x);
      }
    }

    // -------------------------------------------------------------- endpoints

    method AllocateEndpointState() returns (e: int)
      requires Valid()
      modifies this`freeEndpointStateHead, this`v, endpoints
      ensures Valid()
      ensures e == NIL ==> old(v).idle == [] && v == old(v) && endpoints[..] == old(endpoints[..])
      ensures e != NIL ==> old(v).idle != [] && e == old(v).idle[0] && 0 <= e < endpoints.Length == |old(v).use|
      ensures e != NIL ==> old(v).use[e] == Idle && v == old(v).(use := old(v).use[e := Held], idle := old(v).idle[1..])
      ensures e != NIL ==> endpoints[..] == old(endpoints[..])[e := BLANK_ENDPOINT]
    {
      hide Ok;
      Sizes();
      e := freeEndpointStateHead;
      if e == NIL {
        return;
      }
      TakeEndpointKeeps(M(), v, BLANK_ENDPOINT);
      freeEndpointStateHead := endpoints[e].nextEndpoint;
      endpoints[e] := BLANK_ENDPOINT;
      v := v.(use := v.use[e := Held], idle := v.idle[1..]);
      assert endpoints[..] == old(endpoints[..])[e := BLANK_ENDPOINT];
    }

    /** Returns a held endpoint without transactions, and its dummy if it has one. */
    method ReleaseEndpointState(e: int)
      requires Valid() && 0 <= e < endpoints.Length && e < |v.use| && v.use[e] == Held
      requires var d := endpoints[e].dummyTransfer;
        d == NIL || (0 <= d < transfers.Length && d < |v.owner| && v.owner[d] == Loose)
      modifies this`freeEndpointStateHead, this`freeAsyncTransferHead, this`v, transfers, endpoints
      ensures Valid()
      ensures var d := old(endpoints[e]).dummyTransfer;
        v == (if d == NIL then old(v) else old(v).(owner := old(v).owner[d := Free], free := [d] + old(v).free))
             .(use := old(v).use[e := Idle], idle := [e] + old(v).idle)
      ensures endpoints[..] == old(endpoints[..])[e := BLANK_ENDPOINT.(nextEndpoint := old(freeEndpointStateHead))]
      ensures forall x :: 0 <= x < transfers.Length && x != old(endpoints[e]).dummyTransfer ==>
        transfers[x] == old(transfers[x])
    {
      hide Ok;
      ghost var eps := endpoints[..];
      if endpoints[e].dummyTransfer != NIL {
        ReleaseAsyncTransfer(endpoints[e].dummyTransfer);
      }
      var cell := BLANK_ENDPOINT.(nextEndpoint := freeEndpointStateHead);
      ReturnEndpointKeeps(M(), v, e, cell);
      endpoints[e] := cell;
      freeEndpointStateHead := e;
      v := v.(use := v.use[e := Idle], idle := [e] + v.idle);
      assert endpoints[..] == eps[e := cell];
    }

    /** Writes a held endpoint's state and queue head for a new key, its queue empty at the dummy d. */
    method PrepareEndpoint(e: int, func: nat, ep: nat, direction: nat, maxPacketSize: nat, isControl: bool, d: nat)
      requires Valid() && 0 <= e < endpoints.Length && e < |v.use| && v.use[e] == Held && endpoints[e] == BLANK_ENDPOINT
      modifies endpoints
      ensures Valid()
      ensures endpoints[..] == old(endpoints[..])[e := NewEndpoint(func, ep, direction, maxPacketSize, isControl, d)]
    {
      hide Ok;
      HeldKeeps(M(), v, e, NewEndpoint(func, ep, direction, maxPacketSize, isControl, d));
      ghost var eps := endpoints[..];
      endpoints[e] := endpoints[e].(dummyTransfer := d);
      endpoints[e] := endpoints[e].(func := func, ep := ep, direction := if isControl then USB_ANY else direction);
      endpoints[e] := endpoints[e].(maxPacketSize := maxPacketSize, isControl := isControl);
      var overlay := endpoints[e].overlay;
      endpoints[e] := endpoints[e].(overlay := overlay.(nextQTD := QtdPhys(d), altNextQTD := TERMINATE, token := 0));
      assert endpoints[..] == eps[e := NewEndpoint(func, ep, direction, maxPacketSize, isControl, d)];
    }

    static function NewEndpoint(func: nat, ep: nat, direction: nat, maxPacketSize: nat, isControl: bool,
                                d: nat): EndpointState
    {
      BLANK_ENDPOINT.(dummyTransfer := d, func := func, ep := ep, direction := if isControl then USB_ANY else direction,
                      maxPacketSize := maxPacketSize, isControl := isControl,
                      overlay := Overlay(0, QtdPhys(d), TERMINATE, 0, NO_BUFFERS))
    }

    /** Links a prepared endpoint in front of the software list and of the ring of queue heads. */
    method LinkEndpoint(e: int)
      requires Valid() && Stopped() && 0 <= e < endpoints.Length && e < |v.use| && v.use[e] == Held
      requires endpoints[e].transactionHead == NIL && endpoints[e].transactionTail == NIL
      requires var d := endpoints[e].dummyTransfer;
        0 <= d < transfers.Length && d < |v.owner| && v.owner[d] == Loose && DummyOk(transfers[d])
      requires endpoints[e].isControl ==> endpoints[e].direction == USB_ANY
      requires NoneAnswers(endpoints[e].func, endpoints[e].ep, endpoints[e].direction)
      modifies this`endpointStateHead, this`headNextQH, this`v, endpoints
      ensures Valid() && v == ListedFirst(old(v), e, old(endpoints[e]).dummyTransfer)
      ensures old(endpointStateHead) >= NIL
      ensures M() == LinkedFirst(old(M()), e)
      ensures forall f :: 0 <= f < endpoints.Length && f != e ==> endpoints[f] == old(endpoints[f])
      ensures endpoints[e].nextEndpoint == old(endpointStateHead)
        && endpoints[e].dummyTransfer == old(endpoints[e]).dummyTransfer
    {
      hide Ok, QhLink;
      Sizes();
      LinkFirstKeeps(M(), v, e);
      ghost var m0 := M();
      endpoints[e] := endpoints[e].(nextEndpoint := endpointStateHead);
      endpoints[e] := endpoints[e].(nextQH := QhLink(endpoints[e].nextEndpoint));
      headNextQH := QhLink(e);
      endpointStateHead := e;
      v := ListedFirst(v, e, endpoints[e].dummyTransfer);
      assert M() == LinkedFirst(m0, e);
    }

    /** Unlinks the first listed endpoint, its queue empty. */
    method UnlinkFirst(e: int)
      requires Valid() && Stopped() && v.listed != [] && e == v.listed[0] && 0 <= e < endpoints.Length == |v.queue|
        && v.queue[e] == []
      modifies this`endpointStateHead, this`headNextQH, this`v
      ensures Valid() && e < |old(v).use| && 0 <= endpoints[e].dummyTransfer < |old(v).owner|
      ensures v == UnlistedAt(old(v), 0, endpoints[e].dummyTransfer)
    {
      hide Ok, QhLink;
      Sizes();
      UnlinkKeeps(M(), v, 0);
      endpointStateHead := endpoints[e].nextEndpoint;
      headNextQH := QhLink(endpointStateHead);
      v := UnlistedAt(v, 0, endpoints[e].dummyTransfer);
    }

    /** The view after endpoint e with dummy d is created. */
    static ghost predicate Created(v0: View, v: View, e: int, d: int)
    {
      && 0 <= e < |v0.use| && 0 <= d < |v0.owner| && v0.idle != [] && v0.idle[0] == e && v0.free != []
        && v0.free[0] == d
      && v0.use[e] == Idle && v0.owner[d] == Free
      && v == v0.(use := v0.use[e := Listed], idle := v0.idle[1..], listed := [e] + v0.listed,
                  owner := v0.owner[d := Dummy(e)], free := v0.free[1..])
    }

    /** Creates an endpoint unless one answers to its key already.  Every failing exit leaves the pool,
        the endpoint list and the lists of free cells exactly as they were. */
    method CreateAsyncEndpoint(func: nat, ep: nat, direction: nat, speed: nat, maxPacketSize: nat, isControl: bool)
      returns (status: IOStatus, ghost e: int)
      requires Valid() && Settled(v)
      modifies this`freeEndpointStateHead, this`freeAsyncTransferHead, this`endpointStateHead, this`headNextQH, this`v,
        this`asyncEnabled, this`timedOut, this`running, transfers, endpoints
      ensures Valid() && Settled(v)
      ensures status != Success || old(!NoneAnswers(func, ep, if isControl then USB_ANY else direction)) ==> v == old(v)
      ensures status == Success && old(NoneAnswers(func, ep, if isControl then USB_ANY else direction)) ==>
        (0 <= e < endpoints.Length && Created(old(v), v, e, endpoints[e].dummyTransfer)
         && endpoints[e].func == func && endpoints[e].ep == ep && endpoints[e].isControl == isControl
           && endpoints[e].maxPacketSize == maxPacketSize
         && endpoints[e].direction == (if isControl then USB_ANY else direction)
         && endpoints[e].overlay.nextQTD == QtdPhys(endpoints[e].dummyTransfer))
      ensures status == Success ==> exists f ::
        0 <= f < endpoints.Length == |v.use| && v.use[f] == Listed && endpoints[f].func == func && endpoints[f].ep == ep
        && (endpoints[f].isControl || endpoints[f].direction == if isControl then USB_ANY else direction)
      ensures status == BadArgument <==>
        (maxPacketSize == 0 || (speed == HIGH_SPEED && !isControl && direction != USB_IN && direction != USB_OUT))
      ensures status == Unsupported <==> maxPacketSize != 0 && speed != HIGH_SPEED
      ensures status in {Success, BadArgument, Unsupported, NoMemory, Timeout}
      ensures status == NoMemory <==>
        status !in {BadArgument, Unsupported} && (old(v).idle == [] || old(v).free == [])
        && old(NoneAnswers(func, ep, if isControl then USB_ANY else direction))
      ensures PlacesKept(old(M()), old(v), M(), v, NIL)
      ensures status == Timeout ==> timedOut
    {
      hide Ok, Settled, NoneIn, AnswersTo, Created, PlacesKept;
      PlacesSame(M(), v);
      e := NIL;
      if maxPacketSize == 0 {
        return BadArgument, e;
      }
      if speed != HIGH_SPEED {
        return Unsupported, e;
      }
      if !isControl && direction != USB_IN && direction != USB_OUT {
        return BadArgument, e;
      }
      var key := if isControl then USB_ANY else direction;
      var found;
      ghost var j;
      found, j := FindEndpointState(func, ep, key);
      if found != NIL {
        AnswerFields(found, func, ep, key);
        return Success, e;
      }
      status, e := AddEndpoint(func, ep, direction, maxPacketSize, isControl);
      if status == Success { CreatedListed(old(v), v, e, endpoints[e].dummyTransfer); }
    }

    lemma CreatedListed(v0: View, v1: View, e: int, d: int)
      requires Valid() && v == v1 && Created(v0, v1, e, d)
      ensures 0 <= e < |v.use| == endpoints.Length && v.use[e] == Listed
    {
    }

    /** Takes an idle endpoint and a free transfer and lists them under a key nobody answers to. */
    method AddEndpoint(func: nat, ep: nat, direction: nat, maxPacketSize: nat, isControl: bool)
      returns (status: IOStatus, ghost e: int)
      requires Valid() && Settled(v) && NoneAnswers(func, ep, if isControl then USB_ANY else direction)
      modifies this`freeEndpointStateHead, this`freeAsyncTransferHead, this`endpointStateHead, this`headNextQH, this`v,
        this`asyncEnabled, this`timedOut, this`running, transfers, endpoints
      ensures Valid() && Settled(v) && status in {Success, NoMemory, Timeout}
      ensures status != Success ==> v == old(v)
      ensures status == NoMemory <==> old(v).idle == [] || old(v).free == []
      ensures PlacesKept(old(M()), old(v), M(), v, NIL)
      ensures status == Success ==>
        (0 <= e < endpoints.Length && Created(old(v), v, e, endpoints[e].dummyTransfer)
         && endpoints[e].func == func && endpoints[e].ep == ep && endpoints[e].isControl == isControl
           && endpoints[e].maxPacketSize == maxPacketSize
         && endpoints[e].direction == (if isControl then USB_ANY else direction)
         && endpoints[e].overlay.nextQTD == QtdPhys(endpoints[e].dummyTransfer))
      ensures status == Timeout ==> timedOut
    {
      hide Ok, Settled, NoneIn, QhLink, Created, PlacesKept;
      ghost var m0, v0, eps0 := M(), v, endpoints[..];
      Sizes();
      var key := if isControl then USB_ANY else direction;
      e := NIL;
      var x := AllocateEndpointState();
      if x == NIL {
        ListedPlaces(m0, v0, NIL, NIL);
        return NoMemory, e;
      }
      var d := AllocateAsyncTransfer();
      if d == NIL {
        ReleaseEndpointState(x);
        GivenBack(v0, x);
        ListedPlaces(m0, v0, x, d);
        return NoMemory, e;
      }
      PrepareEndpoint(x, func, ep, direction, maxPacketSize, isControl, d);
      assert endpoints[..] == eps0[x := endpoints[x]];
      StillNone(eps0, v0.use, x, endpoints[x], func, ep, key);
      var ok := ListEndpoint(x, v0);
      e, status := x, if ok then Success else Timeout;
      assert endpoints[..] == eps0[x := endpoints[x]];
      AddedPlaces(m0, v0, x, d, ok);
    }

    /** Gives endpoint x and its dummy back. */
    method DropEndpoint(x: int, ghost v0: View)
      requires Valid() && 0 <= x < endpoints.Length && v0.idle != [] && v0.idle[0] == x && x < |v0.use|
        && v0.use[x] == Idle
      requires var d := endpoints[x].dummyTransfer;
        && v0.free != [] && v0.free[0] == d && 0 <= d < |v0.owner| && v0.owner[d] == Free && v == Taken(v0, x, d)
        && d < transfers.Length
      modifies this`freeEndpointStateHead, this`freeAsyncTransferHead, this`v, transfers, endpoints
      ensures Valid() && v == v0
      ensures forall f :: 0 <= f < endpoints.Length && f != x ==> endpoints[f] == old(endpoints[f])
      ensures forall y :: 0 <= y < transfers.Length && y != old(endpoints[x]).dummyTransfer ==>
        transfers[y] == old(transfers[y])
    {
      hide Ok;
      ghost var d := endpoints[x].dummyTransfer;
      ReleaseEndpointState(x);
      TakenBack(v0, x, d);
    }

    /** Lists prepared endpoint x with the schedule stopped; when the controller does not stop or does
        not start again, gives the endpoint and its dummy back. */
    method ListEndpoint(x: int, ghost v0: View) returns (ok: bool)
      requires Valid() && Settled(v0) && 0 <= x < endpoints.Length == |v.use|
      requires v0.idle != [] && v0.idle[0] == x && x < |v0.use| && v0.use[x] == Idle
      requires var d := endpoints[x].dummyTransfer;
        && v0.free != [] && v0.free[0] == d && 0 <= d < |v0.owner| && v0.owner[d] == Free && v == Taken(v0, x, d)
        && d < transfers.Length && DummyOk(transfers[d])
      requires endpoints[x].transactionHead == NIL && endpoints[x].transactionTail == NIL
      requires endpoints[x].isControl ==> endpoints[x].direction == USB_ANY
      requires NoneAnswers(endpoints[x].func, endpoints[x].ep, endpoints[x].direction)
      modifies this`freeEndpointStateHead, this`freeAsyncTransferHead, this`endpointStateHead, this`headNextQH, this`v,
        this`asyncEnabled, this`timedOut, this`running, transfers, endpoints
      ensures Valid() && Settled(v)
      ensures !ok ==> v == v0
      ensures ok ==> Created(v0, v, x, endpoints[x].dummyTransfer)
      ensures ok ==> endpoints[x] == old(endpoints[x]).(nextEndpoint := endpoints[x].nextEndpoint,
                                                        nextQH := endpoints[x].nextQH)
      ensures forall f :: 0 <= f < endpoints.Length && f != x ==> endpoints[f] == old(endpoints[f])
      ensures forall y :: 0 <= y < transfers.Length && y != old(endpoints[x].dummyTransfer) ==>
        transfers[y] == old(transfers[y])
      ensures !ok ==> timedOut
    {
      hide Ok, Settled, NoneIn, QhLink, Created, DummyOk;
      var d := endpoints[x].dummyTransfer;
      ok := SetAsyncScheduleEnabled(false);
      if !ok {
        DropEndpoint(x, v0);
        return;
      }
      UnlistedQueue(x);
      LinkEndpoint(x);
      ok := SetAsyncScheduleEnabled(true);
      if !ok {
        UnlinkFirst(x);
        Unlisted(v0, x, d);
        DropEndpoint(x, v0);
        return;
      }
      SettledCreated(v0, x, d);
    }

    lemma UnlistedQueue(e: int)
      requires Valid() && 0 <= e < endpoints.Length && e < |v.use| && v.use[e] != Listed
      ensures e < |v.queue| == endpoints.Length && v.queue[e] == []
    {
    }

    static lemma StillNone(eps: seq<EndpointState>, use: seq<Use>, x: int, cell: EndpointState, func: nat, ep: nat,
                           key: nat)
      requires NoneIn(eps, use, func, ep, key) && 0 <= x < |eps|
      ensures NoneIn(eps[x := cell], use[x := Held], func, ep, key)
    {
    }

    static lemma GivenBack(v0: View, x: int)
      requires v0.idle != [] && v0.idle[0] == x && 0 <= x < |v0.use| && v0.use[x] == Idle
      ensures v0.(use := v0.use[x := Held][x := Idle], idle := [x] + v0.idle[1..]) == v0
    {
    }

    static lemma TakenBack(v0: View, x: int, d: int)
      requires v0.idle != [] && v0.idle[0] == x && 0 <= x < |v0.use| && v0.use[x] == Idle
      requires v0.free != [] && v0.free[0] == d && 0 <= d < |v0.owner| && v0.owner[d] == Free
      ensures v0.(use := v0.use[x := Held][x := Idle], idle := [x] + v0.idle[1..],
                  owner := v0.owner[d := Loose][d := Free], free := [d] + v0.free[1..]) == v0
    {
    }

    /** The view with endpoint x and transfer d taken. */
    static function Taken(v0: View, x: int, d: int): View
      requires v0.idle != [] && 0 <= x < |v0.use| && v0.free != [] && 0 <= d < |v0.owner|
    {
      v0.(use := v0.use[x := Held], idle := v0.idle[1..], owner := v0.owner[d := Loose], free := v0.free[1..])
    }

    static lemma Unlisted(v0: View, x: int, d: int)
      requires v0.idle != [] && 0 <= x < |v0.use| && v0.free != [] && 0 <= d < |v0.owner|
      ensures UnlistedAt(ListedFirst(Taken(v0, x, d), x, d), 0, d) == Taken(v0, x, d)
    {
    }

    static lemma SettledCreated(v0: View, x: int, d: int)
      requires v0.idle != [] && v0.idle[0] == x && 0 <= x < |v0.use| && v0.use[x] == Idle
      requires v0.free != [] && v0.free[0] == d && 0 <= d < |v0.owner| && v0.owner[d] == Free
      ensures var v := ListedFirst(Taken(v0, x, d), x, d); Created(v0, v, x, d) && (Settled(v0) ==> Settled(v))
    {
    }

    /** Aborts what is queued on the endpoint that answers to the key. */
    method UIMAbortEndpoint(func: nat, ep: nat, direction: nat) returns (status: IOStatus, ghost e: int)
      requires Valid() && Settled(v)
      modifies this`freeAsyncTransferHead, this`v, this`asyncEnabled, this`timedOut, this`running, this`log,
        transfers, endpoints
      ensures Valid() && Settled(v)
      ensures func == rootHubAddress ==> status == Success && v == old(v) && log == old(log)
      ensures func != rootHubAddress ==> (status == EndpointNotFound <==> old(NoneAnswers(func, ep, direction)))
      ensures status == EndpointNotFound ==> v == old(v) && log == old(log)
      ensures status != EndpointNotFound && func != rootHubAddress ==>
        (status == Success && old(FirstAnswer(e, func, ep, direction)) && v.queue == old(v).queue[e := []]
         && log == old(log) + Abortions(transactions, old(v).queue[e], Aborted)
         && OnlyFreed(old(v), old(transfers[..]), old(v).queue[e]))
      ensures status != EndpointNotFound && func != rootHubAddress ==>
        (0 <= e < endpoints.Length && old(endpoints[e]).func == func && old(endpoints[e]).ep == ep
         && (old(endpoints[e]).isControl || old(endpoints[e]).direction == direction))
      ensures status == EndpointNotFound ==>
        forall f :: 0 <= f < endpoints.Length == |old(v).use| && old(v).use[f] == Listed ==>
          !(old(endpoints[f]).func == func && old(endpoints[f]).ep == ep
            && (old(endpoints[f]).isControl || old(endpoints[f]).direction == direction))
      ensures !timedOut ==> PlacesKept(old(M()), old(v), M(), v, NIL)
    {
      hide Ok, Settled, NoneIn, AnswersTo, OnlyFreed, Abortions, PlacesKept;
      PlacesSame(M(), v);
      e := NIL;
      if func == rootHubAddress {
        return Success, e;
      }
      var found;
      ghost var j;
      found, j := FindEndpointState(func, ep, direction);
      if found == NIL {
        NoneHasKey(func, ep, direction);
        return EndpointNotFound, e;
      }
      e := found;
      AnswerFields(e, func, ep, direction);
      Sizes();
      FoundFirst(j, e, func, ep, direction);
      AbortEndpointTransactions(found, Aborted);
      status := Success;
    }

    /** Endpoint e is the first of the list that answers to the key. */
    ghost predicate FirstAnswer(e: int, func: nat, ep: nat, direction: nat)
      reads this`v, this`endpoints, endpoints
    {
      exists j :: FirstAt(j, e, func, ep, direction)
    }

    ghost predicate FirstAt(j: int, e: int, func: nat, ep: nat, direction: nat)
      reads this`v, this`endpoints, endpoints
    {
      && 0 <= j < |v.listed| && v.listed[j] == e && e < |v.queue|
      && (forall i :: 0 <= i <= j ==> 0 <= v.listed[i] < endpoints.Length)
      && endpoints[e].func == func && endpoints[e].ep == ep
      && (endpoints[e].isControl || endpoints[e].direction == direction)
      && forall i :: 0 <= i < j ==>
           var f := v.listed[i]; !(endpoints[f].func == func && endpoints[f].ep == ep
                                   && (endpoints[f].isControl || endpoints[f].direction == direction))
    }

    lemma FoundFirst(j: int, e: int, func: nat, ep: nat, direction: nat)
      requires 0 <= j < |v.listed| && v.listed[j] == e && e < |v.queue|
      requires forall i :: 0 <= i <= j ==> 0 <= v.listed[i] < endpoints.Length
      requires Answers(e, func, ep, direction)
      requires forall i :: 0 <= i < j ==> !Answers(v.listed[i], func, ep, direction)
      ensures FirstAt(j, e, func, ep, direction)
    {
    }

    /** The endpoint in front of e in the list. */
    method FindPredecessor(e: int, ghost j: nat) returns (p: int)
      requires Valid() && 0 < j < |v.listed| && v.listed[j] == e
      ensures p == v.listed[j - 1] && 0 <= p < endpoints.Length
    {
      hide Ok;
      ListFacts();
      p := endpointStateHead;
      ghost var k := 0;
      ChainLink(NextEndpoint(endpoints[..]), endpointStateHead, v.listed, NIL, 0);
      while p != NIL && endpoints[p].nextEndpoint != e
        invariant k < j && p == v.listed[k] && 0 <= p < endpoints.Length && endpoints[p].nextEndpoint == v.listed[k + 1]
        decreases j - k
      {
        p := endpoints[p].nextEndpoint;
        k := k + 1;
        ChainLink(NextEndpoint(endpoints[..]), endpointStateHead, v.listed, NIL, k);
      }
    }

    /** Unlinks endpoint e, its queue empty, from the software list and from the ring of queue heads. */
    method UnlinkEndpoint(e: int, ghost j: nat)
      requires Valid() && Stopped() && j < |v.listed| && v.listed[j] == e && 0 <= e < endpoints.Length == |v.queue|
        && v.queue[e] == []
      requires e < |v.use| && v.use[e] == Listed
      modifies this`endpointStateHead, this`headNextQH, this`v, endpoints
      ensures Valid() && e < |old(v).use| && 0 <= endpoints[e].dummyTransfer < |old(v).owner|
      ensures v == UnlistedAt(old(v), j, endpoints[e].dummyTransfer) && v.use[e] == Held
      ensures 0 <= endpoints[e].dummyTransfer < transfers.Length && endpoints[e] == old(endpoints[e])
      ensures forall f :: 0 <= f < endpoints.Length ==>
        endpoints[f] == old(endpoints[f]).(nextEndpoint := endpoints[f].nextEndpoint, nextQH := endpoints[f].nextQH)
    {
      hide Ok, QhLink, QueueOk;
      Sizes();
      ListFacts();
      QueueFacts(e);
      ghost var m0 := M();
      UnlinkKeeps(m0, v, j);
      if endpointStateHead == e {
        assert j == 0;
        endpointStateHead := endpoints[e].nextEndpoint;
        headNextQH := QhLink(endpointStateHead);
      } else {
        var p := FindPredecessor(e, j);
        endpoints[p] := endpoints[p].(nextEndpoint := endpoints[e].nextEndpoint);
        endpoints[p] := endpoints[p].(nextQH := endpoints[e].nextQH);
      }
      assert M() == UnlinkedAt(m0, v.listed, j);
      v := UnlistedAt(v, j, endpoints[e].dummyTransfer);
    }

    /** Aborts what is queued on the endpoint that answers to the key and takes it off the list, unless
        the controller cannot be stopped. */
    method UIMDeleteEndpoint(func: nat, ep: nat, direction: nat)
      returns (status: IOStatus, ghost e: int, ghost gone: bool)
      requires Valid() && Settled(v)
      modifies this`freeEndpointStateHead, this`freeAsyncTransferHead, this`endpointStateHead, this`headNextQH, this`v,
        this`asyncEnabled, this`timedOut, this`running, this`log, transfers, endpoints
      ensures Valid() && Settled(v)
      ensures func == rootHubAddress ==> status == Success && v == old(v) && log == old(log)
      ensures func != rootHubAddress ==> (status == EndpointNotFound <==> old(NoneAnswers(func, ep, direction)))
      ensures status == EndpointNotFound ==> v == old(v) && log == old(log)
      ensures status != EndpointNotFound && func != rootHubAddress ==>
        (status in {Success, Timeout} && old(FirstAnswer(e, func, ep, direction)) && v.queue == old(v).queue[e := []]
         && log == old(log) + Abortions(transactions, old(v).queue[e], Aborted)
         && (status == Success ==> gone) && Deleted(old(v), v, e, gone))
      ensures status != EndpointNotFound && func != rootHubAddress ==>
        (0 <= e < endpoints.Length && old(endpoints[e]).func == func && old(endpoints[e]).ep == ep
         && (old(endpoints[e]).isControl || old(endpoints[e]).direction == direction))
      ensures status == EndpointNotFound ==>
        forall f :: 0 <= f < endpoints.Length == |old(v).use| && old(v).use[f] == Listed ==>
          !(old(endpoints[f]).func == func && old(endpoints[f]).ep == ep
            && (old(endpoints[f]).isControl || old(endpoints[f]).direction == direction))
      ensures status == Timeout ==> timedOut
      ensures !timedOut ==> PlacesKept(old(M()), old(v), M(), v, NIL)
    {
      hide Ok, Settled, NoneIn, AnswersTo, OnlyFreed, Abortions, Deleted, AbortedOwners, PlacesKept;
      PlacesSame(M(), v);
      ghost var m0 := M();
      e, gone := NIL, false;
      if func == rootHubAddress {
        return Success, e, gone;
      }
      ghost var v0 := v;
      var found;
      ghost var j;
      found, j := FindEndpointState(func, ep, direction);
      if found == NIL {
        NoneHasKey(func, ep, direction);
        return EndpointNotFound, e, gone;
      }
      e := found;
      AnswerFields(e, func, ep, direction);
      Sizes();
      FoundFirst(j, e, func, ep, direction);
      AbortEndpointTransactions(found, Aborted);
      AbortedLists(v0, old(transfers[..]), e);
      ghost var m1, v1 := M(), v;
      status, gone := RemoveEndpoint(found, j, v0);
      if !timedOut { PlacesKeptOn(m0, v0, m1, v1, M(), v, NIL); }
    }

    /** Takes aborted endpoint e off the list with the schedule stopped. */
    method RemoveEndpoint(e: int, ghost j: nat, ghost v0: View) returns (status: IOStatus, ghost gone: bool)
      requires Valid() && Settled(v) && 0 <= e < endpoints.Length == |v.queue| && v.queue[e] == []
      requires j < |v.listed| && v.listed[j] == e && e < |v.use| && v.use[e] == Listed
      requires e < |v0.queue| && AbortedOwners(v0, v, e) && v.use == v0.use && v.listed == v0.listed
        && v.idle == v0.idle
      modifies this`freeEndpointStateHead, this`freeAsyncTransferHead, this`endpointStateHead, this`headNextQH, this`v,
        this`asyncEnabled, this`timedOut, this`running, transfers, endpoints
      ensures Valid() && Settled(v) && v.queue == old(v).queue
      ensures status in {Success, Timeout} && (status == Success ==> gone) && Deleted(v0, v, e, gone)
      ensures (status == Timeout ==> timedOut) && (status == Success && !old(timedOut) ==> !timedOut)
      ensures PlacesKept(old(M()), old(v), M(), v, NIL)
      ensures old(timedOut) ==> timedOut
    {
      hide Ok, Settled, Deleted, AbortedOwners, PlacesKept;
      PlacesSame(M(), v);
      gone := false;
      OneDummy(e);
      Sizes();
      ghost var m0, v2 := M(), v;
      var ok := SetAsyncScheduleEnabled(false);
      if !ok {
        DeletedNot(v0, v, e);
        return Timeout, gone;
      }
      ghost var v1, d := v, endpoints[e].dummyTransfer;
      UnlinkEndpoint(e, j);
      ReleaseEndpointState(e);
      gone := true;
      DeletedIs(v0, v1, v, e, j, d);
      ListedPlaces(m0, v2, e, d);
      ok := SetAsyncScheduleEnabled(true);
      status := if ok then Success else Timeout;
    }

    /** The cells of the transactions queued on e are free again. */
    static ghost predicate AbortedOwners(v0: View, v: View, e: int)
      requires 0 <= e < |v0.queue|
    {
      |v.owner| == |v0.owner| &&
      forall x :: 0 <= x < |v.owner| ==>
        v.owner[x] == if v0.owner[x].Chained? && v0.owner[x].transaction in v0.queue[e] then Free else v0.owner[x]
    }

    lemma AbortedLists(v0: View, xs0: seq<Transfer>, e: int)
      requires 0 <= e < |v0.queue| && OnlyFreed(v0, xs0, v0.queue[e])
      ensures AbortedOwners(v0, v, e) && v.use == v0.use && v.listed == v0.listed && v.idle == v0.idle
    {
    }

    lemma OneDummy(e: int)
      requires Valid() && 0 <= e < endpoints.Length && e < |v.use| && v.use[e] == Listed
      ensures 0 <= endpoints[e].dummyTransfer < |v.owner| && v.owner[endpoints[e].dummyTransfer] == Dummy(e)
      ensures forall x :: 0 <= x < |v.owner| && v.owner[x] == Dummy(e) ==> x == endpoints[e].dummyTransfer
    {
    }

    /** What deleting endpoint e does to the list, the idle endpoints and the pool: its queued cells
        are free, and once it is gone from the list its dummy is free and it is idle. */
    static ghost predicate Deleted(v0: View, v: View, e: int, gone: bool)
    {
      && 0 <= e < |v0.use| && e < |v0.queue| && |v.owner| == |v0.owner|
      && v.use == (if gone then v0.use[e := Idle] else v0.use)
      && v.idle == (if gone then [e] + v0.idle else v0.idle)
      && (if gone then exists j :: Without(v0.listed, v.listed, e, j) else v.listed == v0.listed)
      && (forall x :: 0 <= x < |v.owner| ==>
            v.owner[x] == if (v0.owner[x].Chained? && v0.owner[x].transaction in v0.queue[e])
              || (gone && v0.owner[x] == Dummy(e))
                          then Free else v0.owner[x])
    }

    static ghost predicate Without(listed: seq<int>, listed': seq<int>, e: int, j: int)
    {
      0 <= j < |listed| && listed[j] == e && listed' == listed[..j] + listed[j + 1..]
    }

    static lemma DeletedNot(v0: View, v: View, e: int)
      requires 0 <= e < |v0.use| && e < |v0.queue| && AbortedOwners(v0, v, e)
      requires v.use == v0.use && v.listed == v0.listed && v.idle == v0.idle
      ensures Deleted(v0, v, e, false)
    {
    }

    static lemma DeletedIs(v0: View, v1: View, v: View, e: int, j: int, d: int)
      requires 0 <= e < |v0.use| && e < |v0.queue| && AbortedOwners(v0, v1, e)
      requires v1.use == v0.use && v1.listed == v0.listed && v1.idle == v0.idle
      requires 0 <= j < |v0.listed| && v0.listed[j] == e && 0 <= d < |v1.owner| && v1.owner[d] == Dummy(e)
      requires forall x :: 0 <= x < |v1.owner| && v1.owner[x] == Dummy(e) ==> x == d
      requires var v2 := UnlistedAt(v1, j, d);
        v == v2.(owner := v2.owner[d := Free], free := [d] + v2.free).(use := v2.use[e := Idle], idle := [e] + v2.idle)
      ensures Deleted(v0, v, e, true) && v.queue == v1.queue && (Settled(v1) ==> Settled(v))
    {
      assert Without(v0.listed, v.listed, e, j);
    }

    // -------------------------------------------------------------- the controller

    /** The controller rewriting the token of a queued descriptor, never leaving more bytes than it had. */
    method ControllerWrites(x: int, token: nat)
      requires Valid() && 0 <= x < transfers.Length && x < |v.owner| && v.owner[x].Chained?
      requires Bytes(token) <= transfers[x].transferLength
      modifies transfers
      ensures Valid() && transfers[..] == old(transfers[..])[x := old(transfers[x]).(token := token)]
    {
      hide Ok;
      TokenKeeps(M(), v, x, token);
      ghost var xs := transfers[..];
      transfers[x] := transfers[x].(token := token);
      assert transfers[..] == xs[x := xs[x].(token := token)];
    }

    // -------------------------------------------------------------- the controller's place in a queue

    /** The controller fetches the next descriptor of an endpoint's queue, if it is active. */
    method ControllerFetches(e: int, ghost i: nat)
      requires Valid() && 0 <= e < endpoints.Length && v.use[e] == Listed && Fetched(M(), v, e, i)
      modifies endpoints
      ensures Valid() && PlacesKept(old(M()), v, M(), v, NIL)
      ensures forall f :: 0 <= f < endpoints.Length && f != e ==> endpoints[f] == old(endpoints[f])
      ensures Fetched(M(), v, e, if i + 1 < |old(Cells(M(), v, e))| then i + 1 else i)
      ensures endpoints[e] == old(endpoints[e]).(overlay := endpoints[e].overlay)
      ensures var link := old(endpoints[e]).overlay.nextQTD;
        0 <= QtdAt(link) < transfers.Length
        && var x := transfers[QtdAt(link)];
          endpoints[e].overlay == if Active(x.token) then Overlay(link, x.nextQTD, x.altNextQTD, x.token, x.buffer)
                                  else old(endpoints[e]).overlay
      ensures Cells(M(), v, e) == old(Cells(M(), v, e))
    {
      hide FreeOk, ChainsOk, QueuesOk, ListOk, RingOk, KeysOk, Active, Cells, PlacesKept;
      ghost var m0 := M();
      PlacesSame(m0, v);
      NextActive(m0, v, e, i);
      var x := QtdAt(endpoints[e].overlay.nextQTD);
      if Active(transfers[x].token) {
        FetchMoves(m0, v, e, i);
        var overlay := Overlay(endpoints[e].overlay.nextQTD, transfers[x].nextQTD, transfers[x].altNextQTD,
                               transfers[x].token, transfers[x].buffer);
        OverlayKeeps(m0, v, e, overlay);
        endpoints[e] := endpoints[e].(overlay := overlay);
        assert endpoints[..] == m0.eps[e := m0.eps[e].(overlay := overlay)];
        CellsStay(m0, e);
        OthersPlaced(m0, e, i + 1);
      }
    }

    lemma CellsStay(m0: Memory, e: int)
      requires Shape(m0, v) && Shape(M(), v) && 0 <= e < |m0.eps| == endpoints.Length
      requires endpoints[e].dummyTransfer == m0.eps[e].dummyTransfer
      ensures Cells(M(), v, e) == Cells(m0, v, e)
    {
    }

    /** Moving the controller's place in one queue keeps its place in the others. */
    lemma OthersPlaced(m0: Memory, e: int, i: nat)
      requires Valid() && Shape(m0, v) && 0 <= e < |m0.eps| == endpoints.Length
      requires m0 == M().(eps := m0.eps) && endpoints[e].dummyTransfer == m0.eps[e].dummyTransfer
      requires forall f :: 0 <= f < |m0.eps| && f != e ==> endpoints[f] == m0.eps[f]
      requires FetchedAt(m0.xs, endpoints[e].overlay.nextQTD, Cells(m0, v, e), i)
      ensures Fetched(M(), v, e, i) && PlacesKept(m0, v, M(), v, NIL)
    {
      hide FreeOk, ChainsOk, QueuesOk, ListOk, RingOk, KeysOk, Active;
      assert Fetched(M(), v, e, i);
      PlaceStands(M(), v, e);
      forall f | 0 <= f < |m0.eps| && v.use[f] == Listed && f != e ensures Keeps(m0, v, M(), v, f) {
        if HasPlace(m0, v, f) {
          var k: nat :| Fetched(m0, v, f, k);
          assert Fetched(M(), v, f, k);
        }
      }
    }

    /** The controller rewrites the token of a descriptor it has fetched, the j-th of the queue. */
    method ControllerRetires(e: int, x: int, token: nat, ghost i: nat, ghost j: nat)
      requires Valid() && 0 <= e < endpoints.Length && v.use[e] == Listed && Fetched(M(), v, e, i)
      requires j < i && x == Cells(M(), v, e)[j] && 0 <= x < transfers.Length
      requires Bytes(token) <= transfers[x].transferLength
      modifies transfers
      ensures Valid() && PlacesKept(old(M()), v, M(), v, NIL) && Fetched(M(), v, e, i)
      ensures transfers[..] == old(transfers[..])[x := old(transfers[x]).(token := token)]
      ensures Cells(M(), v, e) == old(Cells(M(), v, e))
    {
      hide FreeOk, ChainsOk, QueuesOk, ListOk, RingOk, KeysOk, Active, Cells, PlacesKept;
      ghost var m0 := M();
      CellOwner(m0, v, e, j);
      ControllerWrites(x, token);
      WrittenPlaced(m0, e, i, j, token);
      CellsStay(m0, e);
    }

    lemma WrittenPlaced(m0: Memory, e: int, i: nat, j: nat, token: nat)
      requires Ok(m0, v) && Valid() && 0 <= e < |m0.eps| && v.use[e] == Listed && Fetched(m0, v, e, i)
      requires j < i && 0 <= Cells(m0, v, e)[j] < |m0.xs|
      requires var x := Cells(m0, v, e)[j]; M() == m0.(xs := m0.xs[x := m0.xs[x].(token := token)])
      ensures PlacesKept(m0, v, M(), v, NIL) && Fetched(M(), v, e, i)
    {
      hide FreeOk, ChainsOk, QueuesOk, ListOk, RingOk, KeysOk, Active, FetchedAt;
      WriteKeepsPlace(m0, v, e, i, j, token, e, i);
      forall f | 0 <= f < |m0.eps| && v.use[f] == Listed ensures Keeps(m0, v, M(), v, f) {
        if HasPlace(m0, v, f) {
          var k: nat :| Fetched(m0, v, f, k);
          WriteKeepsPlace(m0, v, e, i, j, token, f, k);
          assert Fetched(M(), v, f, k);
        }
      }
    }

    /** Neither an endpoint nor a cell in use has changed. */
    lemma SamePlaces(m0: Memory, v0: View)
      requires Ok(m0, v0) && Valid() && endpoints[..] == m0.eps && v.queue == v0.queue && v.use == v0.use
      requires |v.chain| >= |v0.chain| && (forall t :: 0 <= t < |v0.chain| ==> v.chain[t] == v0.chain[t])
      requires KeptInUse(v0.owner, m0.xs)
      ensures PlacesKept(m0, v0, M(), v, NIL)
    {
      hide FreeOk, ChainsOk, QueuesOk, ListOk, RingOk, KeysOk, Keeps, SameQueue;
      forall f | 0 <= f < |m0.eps| && v.use[f] == Listed ensures Keeps(m0, v0, M(), v, f) {
        ChainedKept(m0, v0, M(), v, f);
        SameKeepsPlace(m0, v0, M(), v, f);
      }
    }

    /** Queueing a transaction. */
    lemma QueuedPlaces(m0: Memory, v0: View, txn0: Transaction, e: int, t: int, c: seq<int>, control: bool,
                       early: seq<nat>)
      requires Ok(m0, v0) && Valid()
      requires Queued(v0, m0.xs, m0.eps, txn0, e, t, c, control, early) && 0 <= t < |v0.home| && v0.home[t] == NIL
      requires v0.queue[e] == [] ==> OverlayAtQueue(e)
      ensures PlacesKept(m0, v0, M(), v, e) && PlaceAfter(m0, v0, e, t)
    {
      hide FreeOk, ChainsOk, ListOk, RingOk, KeysOk, Keeps, HasPlace, Stands, SameQueue, QueueOk, DescriptorAt,
        NoneRetired;
      NotQueued(m0, v0, t);
      QueueFacts(e);
      forall f | 0 <= f < |m0.eps| && v.use[f] == Listed && f != e ensures Keeps(m0, v0, M(), v, f) {
        ChainedKept(m0, v0, M(), v, f);
        SameKeepsPlace(m0, v0, M(), v, f);
      }
      if v0.queue[e] == [] {
        FirstCell(e);
        FrontPlacedIff(M(), v, e);
        assert v.queue[e] == [t];
      } else {
        DescriptorsActive(c, endpoints[e].dummyTransfer, t, transactions[t], control, m0.eps[e].maxPacketSize);
        GrownPlaced(m0, v0, M(), v, e, t, c);
      }
    }

    static lemma NotQueued(m: Memory, v: View, t: int)
      requires Ok(m, v) && 0 <= t < |v.home| && v.home[t] == NIL
      ensures forall f :: 0 <= f < |m.eps| && v.use[f] == Listed ==> t !in v.queue[f]
    {
      forall f | 0 <= f < |m.eps| && v.use[f] == Listed ensures t !in v.queue[f] {
        assert QueueOk(m, v, f);
      }
    }

    static lemma DescriptorsActive(c: seq<int>, newDummy: int, t: int, txn: Transaction, control: bool,
                                   maxPacketSize: nat)
      requires |c| == TransferCount(txn.totalLength) && newDummy >= NIL && forall i :: 0 <= i < |c| ==> c[i] >= NIL
      ensures forall k :: 0 <= k < |c| ==> Active(DescriptorAt(c, newDummy, t, txn, control, maxPacketSize, k).token)
    {
      hide MakeToken, ToggleAt, BufferPointers, Active;
      forall k | 0 <= k < |c| ensures Active(DescriptorAt(c, newDummy, t, txn, control, maxPacketSize, k).token) {
        ChunksCover(txn.totalLength, k);
        TokenReadsBack(Pid(txn.direction), ChunkSize(txn.totalLength, k), k + 1 == |c|,
                       control && ToggleAt(control, txn.direction, maxPacketSize, txn.totalLength, k));
      }
    }

    /** A transaction that is done without need for repair has no active descriptor. */
    static lemma JudgedClean(ts: seq<Transfer>)
      requires Judge(ts).Done? && !Judge(ts).repairQueue
      ensures forall k :: 0 <= k < |ts| ==> !Active(ts[k].token)
    {
    }

    /** Completing the head of a queue. */
    lemma CompletedPlaces(m0: Memory, v0: View, e: int, status: IOStatus, remainder: nat, repair: bool)
      requires Ok(m0, v0) && Valid() && 0 <= e < |m0.eps| == endpoints.Length && v0.use[e] == Listed
      requires v0.queue[e] != [] && 0 <= v0.queue[e][0] < |v0.chain| && |m0.xs| == transfers.Length
      requires JudgeCells(m0.xs, v0.chain[v0.queue[e][0]]) == Done(status, remainder, repair)
      requires var t := v0.queue[e][0];
        v == ReleasedView(v0.(queue := v0.queue[e := v0.queue[e][1..]], home := v0.home[t := NIL]), t)
      requires if repair || v.queue[e] == [] then OverlayAtQueue(e) else endpoints[e].overlay == m0.eps[e].overlay
      requires endpoints[e].dummyTransfer == m0.eps[e].dummyTransfer
      requires forall f :: 0 <= f < |m0.eps| && f != e ==> endpoints[f] == m0.eps[f]
      requires forall x :: 0 <= x < |m0.xs| && v0.owner[x] != Chained(v0.queue[e][0]) ==> transfers[x] == m0.xs[x]
      ensures PlacesKept(m0, v0, M(), v, e) && PlaceLeft(m0, v0, e, repair)
    {
      hide FreeOk, ChainsOk, ListOk, RingOk, KeysOk, HasPlace, Stands, Keeps, SameQueue, QueueOk, RestKept, Judge,
        Reversed, Freed, Active, NoneRetired;
      HeadOnly(m0, v0, e);
      forall f | 0 <= f < |m0.eps| && v.use[f] == Listed && f != e ensures Keeps(m0, v0, M(), v, f) {
        ChainedKept(m0, v0, M(), v, f);
        SameKeepsPlace(m0, v0, M(), v, f);
      }
      RestIsKept(m0, v0, e);
      if repair || |v0.queue[e]| == 1 {
        FirstCell(e);
        RestartedPlacedIff(m0, v0, M(), v, e);
      } else if HasPlace(m0, v0, e) {
        HeadRetired(m0, v0, v0.queue[e][0]);
        AdvancedPlaced(m0, v0, M(), v, e);
      }
    }

    /** The head of a queue is queued nowhere else. */
    static lemma HeadOnly(m: Memory, v: View, e: int)
      requires Ok(m, v) && 0 <= e < |m.eps| && v.use[e] == Listed && v.queue[e] != []
      ensures v.queue[e][0] !in v.queue[e][1..]
      ensures forall f :: 0 <= f < |m.eps| && v.use[f] == Listed && f != e ==> v.queue[e][0] !in v.queue[f]
    {
      assert QueueOk(m, v, e);
      assert v.queue[e][0] in v.queue[e];
      forall f | 0 <= f < |m.eps| && v.use[f] == Listed && f != e ensures v.queue[e][0] !in v.queue[f] {
        QueuedOnce(m, v, e, f);
      }
    }

    lemma RestIsKept(m0: Memory, v0: View, e: int)
      requires Shape(m0, v0) && Shape(M(), v) && 0 <= e < |m0.eps| && v0.queue[e] != []
        && 0 <= v0.queue[e][0] < |v0.chain|
      requires v0.queue[e][0] !in v0.queue[e][1..] && |m0.xs| == transfers.Length
      requires var t := v0.queue[e][0];
        v == ReleasedView(v0.(queue := v0.queue[e := v0.queue[e][1..]], home := v0.home[t := NIL]), t)
      requires forall x :: 0 <= x < |m0.xs| && v0.owner[x] != Chained(v0.queue[e][0]) ==> transfers[x] == m0.xs[x]
      ensures RestKept(m0, v0, M(), v, e)
    {
      hide Reversed, Freed;
    }

    static lemma HeadRetired(m: Memory, v: View, t: int)
      requires Shape(m, v) && 0 <= t < |v.chain|
      requires JudgeCells(m.xs, v.chain[t]).Done? && !JudgeCells(m.xs, v.chain[t]).repairQueue
      ensures var c := v.chain[t]; forall k :: 0 <= k < |c| && 0 <= c[k] < |m.xs| ==> !Active(m.xs[c[k]].token)
    {
      hide Judge, Active;
      var c := v.chain[t];
      if forall k :: 0 <= k < |c| ==> 0 <= c[k] < |m.xs| {
        var ts := Gather(m.xs, c);
        JudgedClean(ts);
        assert forall k :: 0 <= k < |c| ==> ts[k] == m.xs[c[k]];
      }
    }

    /** The overlay of a restarted queue names its first cell. */
    lemma FirstCell(e: int)
      requires Valid() && 0 <= e < endpoints.Length && e < |v.use| && v.use[e] == Listed && OverlayAtQueue(e)
      ensures QtdAt(endpoints[e].overlay.nextQTD) == Cells(M(), v, e)[0]
    {
      hide FreeOk, ListOk, RingOk, KeysOk;
      assert QueueOk(M(), v, e);
      if v.queue[e] != [] {
        assert ChainOk(M().xs, v.owner, v.queue[e][0], transactions[v.queue[e][0]], v.chain[v.queue[e][0]]);
      }
    }

    /** Emptying a queue and restarting the controller at its dummy. */
    lemma AbortedPlaces(m0: Memory, v0: View, e: int)
      requires Ok(m0, v0) && Valid() && 0 <= e < |m0.eps| == endpoints.Length && v0.use[e] == Listed
      requires v.queue == v0.queue[e := []] && OnlyFreed(v0, m0.xs, v0.queue[e]) && OverlayAtQueue(e)
      requires forall f :: 0 <= f < |m0.eps| && f != e ==> endpoints[f] == m0.eps[f]
      ensures PlacesKept(m0, v0, M(), v, NIL) && HasPlace(M(), v, e)
    {
      hide FreeOk, ChainsOk, QueuesOk, ListOk, RingOk, KeysOk, HasPlace, Stands, SameQueue, OverlayAtQueue;
      forall f | 0 <= f < |m0.eps| && v.use[f] == Listed && f != e ensures Keeps(m0, v0, M(), v, f) {
        QueuedOnce(m0, v0, e, f);
        ChainedKept(m0, v0, M(), v, f);
        SameKeepsPlace(m0, v0, M(), v, f);
      }
      EmptyPlaced(e);
      PlaceStands(M(), v, e);
    }

    lemma EmptyPlaced(e: int)
      requires Valid() && 0 <= e < endpoints.Length && v.use[e] == Listed && v.queue[e] == [] && OverlayAtQueue(e)
      ensures HasPlace(M(), v, e)
    {
      hide FreeOk, ChainsOk, QueuesOk, ListOk, RingOk, KeysOk, OverlayAtQueue;
      FirstCell(e);
      OwnDummy(M(), v, e);
      assert Fetched(M(), v, e, 0);
    }

    /** Listing an endpoint x with dummy d, or not, or giving one up. */
    lemma ListedPlaces(m0: Memory, v0: View, x: int, d: int)
      requires Ok(m0, v0) && Valid() && |m0.eps| == endpoints.Length && |m0.xs| == transfers.Length
      requires v.queue == v0.queue && v.chain == v0.chain
      requires forall f :: 0 <= f < |m0.eps| && f != x && v.use[f] == Listed ==> v0.use[f] == Listed
      requires forall f :: 0 <= f < |m0.eps| && f != x && v.use[f] == Listed ==>
        endpoints[f].overlay == m0.eps[f].overlay && endpoints[f].dummyTransfer == m0.eps[f].dummyTransfer
      requires forall y :: 0 <= y < |m0.xs| && y != d ==> transfers[y] == m0.xs[y]
      requires 0 <= d < |v0.owner| ==> !v0.owner[d].Chained?
      requires 0 <= x < |m0.eps| && v.use[x] == Listed ==>
        v0.use[x] != Listed && endpoints[x].dummyTransfer >= NIL
          && endpoints[x].overlay.nextQTD == QtdPhys(endpoints[x].dummyTransfer)
      ensures PlacesKept(m0, v0, M(), v, NIL)
    {
      hide FreeOk, ChainsOk, ListOk, RingOk, KeysOk, HasPlace, Stands, Keeps, SameQueue, QueueOk;
      forall f | 0 <= f < |m0.eps| && v.use[f] == Listed && f != x ensures Keeps(m0, v0, M(), v, f) {
        ChainedKept(m0, v0, M(), v, f);
        SameKeepsPlace(m0, v0, M(), v, f);
      }
      if 0 <= x < |m0.eps| && v.use[x] == Listed {
        OverlayEmpty(x);
        EmptyPlaced(x);
      }
    }

    lemma AddedPlaces(m0: Memory, v0: View, x: int, d: int, ok: bool)
      requires Ok(m0, v0) && Valid() && 0 <= x < |m0.eps| == endpoints.Length && v0.use[x] == Idle
      requires 0 <= d < |m0.xs| == transfers.Length && v0.owner[d] == Free
      requires endpoints[..] == m0.eps[x := endpoints[x]]
      requires forall y :: 0 <= y < |m0.xs| && y != d ==> transfers[y] == m0.xs[y]
      requires if ok then Created(v0, v, x, endpoints[x].dummyTransfer) else v == v0
      requires ok ==>
        endpoints[x].dummyTransfer == d && endpoints[x].overlay.nextQTD == QtdPhys(endpoints[x].dummyTransfer)
      ensures PlacesKept(m0, v0, M(), v, NIL)
    {
      hide FreeOk, ChainsOk, QueuesOk, ListOk, RingOk, KeysOk;
      ListedPlaces(m0, v0, x, d);
    }
  }
}
