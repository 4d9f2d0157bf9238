/**
 Runs of the EHCI driver and its controller from the start, which reach states that the general results
 describe: the controller left at a free cell after a repair or after it was faster than the driver, waiting
 for ever, and bytes copied from where none were moved.
 */
module EhciRuns {
  import opened Chains
  import opened EhciTransfers
  import opened EhciLayout
  import opened EhciWalks
  import opened EhciOverlay
  import opened EhciSchedule

  const FUNCTION: nat := 1
  const ENDPOINT: nat := 1

  /** Endpoint e, an input endpoint, is the only one listed, and the controller is at the front of its
      queue, whose transactions have the given numbers of descriptors, the first `spent` of them retired. */
  ghost predicate Prepared(s: AsyncSchedule, e: int, counts: seq<nat>, spent: nat)
    reads s, s.transfers, s.endpoints
  {
    && s.Valid() && Settled(s.v) && Shape(s.M(), s.v) && 0 <= e < s.endpoints.Length
    && (forall f :: 0 <= f < |s.v.use| ==> (s.v.use[f] == Listed <==> f == e))
    && AnswersTo(s.endpoints[e], FUNCTION, ENDPOINT, USB_IN)
    && |s.v.queue[e]| == |counts|
    && (forall k :: 0 <= k < |counts| ==>
          0 <= s.v.queue[e][k] < |s.v.chain| && |s.v.chain[s.v.queue[e][k]]| == counts[k])
    && InputCells(s.transfers[..], s.v.chain, s.v.queue[e])
    && FrontSpent(s.transfers[..], Flat(s.v.chain, s.v.queue[e]), spent)
    && QtdAt(s.endpoints[e].overlay.nextQTD) == Cells(s.M(), s.v, e)[0]
  }

  /** The descriptors of the transactions q are for input and not empty. */
  ghost predicate InputCells(xs: seq<Transfer>, chain: seq<seq<int>>, q: seq<int>)
  {
    forall x :: x in Flat(chain, q) && 0 <= x < |xs| ==> xs[x].pid == PID_IN && xs[x].transferLength > 0
  }

  /** Of the descriptors f the first `spent` have retired and the others are active. */
  ghost predicate FrontSpent(xs: seq<Transfer>, f: seq<int>, spent: nat)
  {
    && spent <= |f|
    && forall k :: 0 <= k < |f| && 0 <= f[k] < |xs| ==>
         if k < spent then xs[f[k]].token == FULL else Active(xs[f[k]].token)
  }

  /** A schedule with one input endpoint, unless the controller cannot be stopped and started. */
  method Start() returns (s: AsyncSchedule, ok: bool, ghost e: int)
    ensures fresh(s) && fresh(s.transfers) && fresh(s.endpoints) && s.Valid()
    ensures if ok then Prepared(s, e, [], 0) && |s.v.free| == TRANSFER_COUNT - 1 else s.timedOut
  {
    hide Ok, Settled, Prepared, InitialView, AsyncSchedule.Created, AsyncSchedule.NoneAnswers, PlacesKept;
    s := new AsyncSchedule(TRANSFER_COUNT, 0);
    ghost var v0 := s.v;
    InitialNone(TRANSFER_COUNT);
    NoneListed(s);
    var status;
    status, e := s.CreateAsyncEndpoint(FUNCTION, ENDPOINT, USB_IN, HIGH_SPEED, 512, false);
    ok := status == Success;
    if ok { StartPrepared(s, v0, e); }
  }

  lemma InitialNone(linked: nat)
    requires 1 <= linked <= TRANSFER_COUNT
    ensures var v := InitialView(linked);
      && (forall f :: 0 <= f < |v.use| ==> v.use[f] == Idle) && v.idle != [] && |v.free| == linked
      && (forall f :: 0 <= f < |v.queue| ==> v.queue[f] == [])
  {
  }

  lemma NoneListed(s: AsyncSchedule)
    requires s.Valid() && forall f :: 0 <= f < |s.v.use| ==> s.v.use[f] == Idle
    ensures s.NoneAnswers(FUNCTION, ENDPOINT, USB_IN)
  {
  }

  lemma StartPrepared(s: AsyncSchedule, v0: View, e: int)
    requires s.Valid() && Settled(s.v) && 0 <= e < s.endpoints.Length
    requires AsyncSchedule.Created(v0, s.v, e, s.endpoints[e].dummyTransfer)
    requires forall f :: 0 <= f < |v0.use| ==> v0.use[f] == Idle
    requires forall f :: 0 <= f < |v0.queue| ==> v0.queue[f] == []
    requires s.endpoints[e].func == FUNCTION && s.endpoints[e].ep == ENDPOINT && s.endpoints[e].direction == USB_IN
    requires s.endpoints[e].overlay.nextQTD == QtdPhys(s.endpoints[e].dummyTransfer)
    ensures Prepared(s, e, [], 0) && |s.v.free| == |v0.free| - 1
  {
    hide FreeOk, ChainsOk, QueuesOk, ListOk, RingOk, KeysOk, Settled;
  }

  /** Submits an input transfer of a buffer, unless the controller cannot be stopped and started.  To an empty
      queue, it may retire the first descriptor before it is restarted there. */
  method Submit(s: AsyncSchedule, size: nat, early: seq<nat>, ghost e: int, ghost counts: seq<nat>, ghost spent: nat)
    returns (ok: bool)
    requires Prepared(s, e, counts, spent) && 0 < size < WORD - CHUNK && TransferCount(size) <= |s.v.free|
    requires early == [] || (early == [FULL] && counts == [] && spent == 0)
    modifies s`freeAsyncTransferHead, s`transactions, s`v, s`asyncEnabled, s`timedOut, s`running,
      s.transfers, s.endpoints
    ensures s.Valid() && (!ok ==> s.timedOut)
    ensures ok ==> Prepared(s, e, counts + [TransferCount(size)], spent + |early|)
    ensures ok ==> |s.v.free| == |old(s.v).free| - TransferCount(size)
  {
    hide Ok, Settled, TransferCount, InputCells, FrontSpent, AsyncSchedule.Submitted, SameView,
      AsyncSchedule.OverlayAtQueue, AsyncSchedule.PlaceAfter, PlacesKept;
    ghost var m0, v0 := s.M(), s.v;
    Answered(s, e);
    var status;
    ghost var f, t, c;
    status, f, t, c :=
      s.SubmitAsyncTransfer(FUNCTION, ENDPOINT, USB_IN, 1, true, size, false, BounceAt(0), true, early);
    ok := status == Success;
    if ok { SubmittedPrepared(s, m0, v0, f, e, t, c, size, early, counts, spent); }
  }

  lemma Answered(s: AsyncSchedule, e: int)
    requires s.Valid() && 0 <= e < s.endpoints.Length && e < |s.v.use| && s.v.use[e] == Listed
    requires AnswersTo(s.endpoints[e], FUNCTION, ENDPOINT, USB_IN)
    ensures !s.NoneAnswers(FUNCTION, ENDPOINT, USB_IN)
  {
  }

  /** The new transaction is last in the queue, over the old dummy; the rest is as it was. */
  lemma SubmittedParts(s: AsyncSchedule, m0: Memory, v0: View, e: int, t: int, c: seq<int>, size: nat, early: seq<nat>)
    requires Ok(m0, v0) && s.Valid() && s.Submitted(v0, m0.xs, m0.eps, e, t, c, 1, USB_IN, size, 0, false, early)
    ensures 0 <= e < |m0.eps| == s.endpoints.Length && v0.use[e] == Listed && s.v.use == v0.use && t == |v0.chain|
    ensures s.v.queue[e] == v0.queue[e] + [t] && |s.v.chain| == t + 1 && s.v.chain[t] == c && c != []
    ensures forall u :: 0 <= u < t ==> s.v.chain[u] == v0.chain[u]
    ensures |c| == TransferCount(size) && |s.v.free| == |v0.free| - |c| && c[0] == m0.eps[e].dummyTransfer
    ensures |m0.xs| == s.transfers.Length
    ensures forall x :: 0 <= x < |m0.xs| && v0.owner[x].Chained? ==> s.transfers[x] == m0.xs[x]
    ensures SameKey(s.endpoints[e], m0.eps[e]) && s.endpoints[e].isControl == m0.eps[e].isControl
    ensures v0.queue[e] != [] ==> s.endpoints[e].overlay == m0.eps[e].overlay
    ensures forall k :: 0 <= k < |c| ==> 0 <= c[k] < |m0.xs|
  {
    hide FreeOk, ChainsOk, QueuesOk, ListOk, RingOk, KeysOk, DescriptorAt;
  }

  lemma SubmittedCells(s: AsyncSchedule, m0: Memory, v0: View, e: int, t: int, c: seq<int>, size: nat, early: seq<nat>)
    requires Ok(m0, v0) && s.Valid() && s.Submitted(v0, m0.xs, m0.eps, e, t, c, 1, USB_IN, size, 0, false, early)
    requires size > 0 && 0 <= e < |v0.queue| && e < |m0.eps| && (early == [] || (early == [FULL] && v0.queue[e] == []))
    requires v0.queue[e] == [] ==> QtdAt(m0.eps[e].overlay.nextQTD) == m0.eps[e].dummyTransfer
    ensures forall k :: 0 <= k < |c| ==>
      (0 <= c[k] < s.transfers.Length
       && s.transfers[c[k]].pid == PID_IN && s.transfers[c[k]].transferLength > 0
       && if k < |early| then s.transfers[c[k]].token == FULL else Active(s.transfers[c[k]].token))
  {
    hide Ok, MakeToken, ToggleAt, BufferPointers, TransferCount, Active;
    var txn := s.transactions[t];
    AsyncSchedule.DescriptorsActive(c, s.endpoints[e].dummyTransfer, t, txn, false, m0.eps[e].maxPacketSize);
    Tokens();
    forall k | 0 <= k < |c| ensures ChunkSize(size, k) > 0 && Offset(k) <= size { ChunksCover(size, k); }
  }

  lemma SubmittedPrepared(s: AsyncSchedule, m0: Memory, v0: View, f: int, e: int, t: int, c: seq<int>, size: nat,
                          early: seq<nat>, counts: seq<nat>, spent: nat)
    requires Ok(m0, v0) && s.Valid() && Settled(s.v) && size > 0
    requires 0 <= e < |m0.eps| && (forall g :: 0 <= g < |v0.use| ==> (v0.use[g] == Listed <==> g == e))
    requires |v0.queue[e]| == |counts| && forall k :: 0 <= k < |counts| ==>
      0 <= v0.queue[e][k] < |v0.chain| && |v0.chain[v0.queue[e][k]]| == counts[k]
    requires AnswersTo(m0.eps[e], FUNCTION, ENDPOINT, USB_IN) && InputCells(m0.xs, v0.chain, v0.queue[e])
    requires FrontSpent(m0.xs, Flat(v0.chain, v0.queue[e]), spent)
    requires early == [] || (early == [FULL] && counts == [] && spent == 0)
    requires QtdAt(m0.eps[e].overlay.nextQTD) == Cells(m0, v0, e)[0]
    requires s.Submitted(v0, m0.xs, m0.eps, f, t, c, 1, USB_IN, size, 0, false, early)
    requires 0 <= f < |v0.queue| && (v0.queue[f] == [] ==> s.OverlayAtQueue(f))
    ensures Prepared(s, e, counts + [TransferCount(size)], spent + |early|)
    ensures |s.v.free| == |v0.free| - TransferCount(size)
  {
    hide FreeOk, ChainsOk, QueuesOk, ListOk, RingOk, KeysOk, InputCells, FrontSpent, TransferCount, Settled, Flat,
      AsyncSchedule.Submitted, AsyncSchedule.OverlayAtQueue, Active;
    SubmittedParts(s, m0, v0, f, t, c, size, early);
    var q := v0.queue[e];
    CellsLinked(m0, v0, e);
    QueuedTransactions(m0, v0, e);
    FlatMore(s.v.chain, q, t);
    FlatSame(v0.chain, s.v.chain, q);
    if q == [] { FlatEmpty(v0.chain); }
    SubmittedCells(s, m0, v0, f, t, c, size, early);
    InputMore(m0, v0, s.transfers[..], s.v.chain, e, t, c);
    SpentMore(m0, v0, s.transfers[..], e, c, spent, |early|);
    if q == [] {
      s.FirstCell(e);
    } else {
      QueueNotEmpty(m0, v0, e);
      assert Cells(m0, v0, e)[0] == Flat(v0.chain, q)[0];
    }
  }

  lemma FlatEmpty(chain: seq<seq<int>>)
    ensures Flat(chain, []) == []
  {
  }

  /** The tokens of the queue once the descriptors c are behind it. */
  lemma SpentMore(m0: Memory, v0: View, xs: seq<Transfer>, e: int, c: seq<int>, spent: nat, n: nat)
    requires Ok(m0, v0) && 0 <= e < |m0.eps| && v0.use[e] == Listed && |xs| == |m0.xs|
    requires FrontSpent(m0.xs, Flat(v0.chain, v0.queue[e]), spent) && (n == 0 || Flat(v0.chain, v0.queue[e]) == [])
    requires forall x :: 0 <= x < |m0.xs| && v0.owner[x].Chained? ==> xs[x] == m0.xs[x]
    requires forall k :: 0 <= k < |c| ==>
      0 <= c[k] < |xs| && if k < n then xs[c[k]].token == FULL else Active(xs[c[k]].token)
    requires n <= |c|
    ensures FrontSpent(xs, Flat(v0.chain, v0.queue[e]) + c, spent + n)
  {
    hide FreeOk, ChainsOk, QueuesOk, ListOk, RingOk, KeysOk, Active, Flat;
    var f := Flat(v0.chain, v0.queue[e]);
    forall k | 0 <= k < |f| ensures 0 <= f[k] < |m0.xs| && xs[f[k]] == m0.xs[f[k]] {
      CellOwner(m0, v0, e, k);
      assert Cells(m0, v0, e)[k] == f[k];
    }
  }

  lemma QueuedTransactions(m: Memory, v: View, e: int)
    requires Ok(m, v) && 0 <= e < |m.eps| && v.use[e] == Listed
    ensures forall k :: 0 <= k < |v.queue[e]| ==> 0 <= v.queue[e][k] < |v.chain|
  {
    assert QueueOk(m, v, e);
  }

  lemma QueueNotEmpty(m: Memory, v: View, e: int)
    requires Ok(m, v) && 0 <= e < |m.eps| && v.use[e] == Listed && v.queue[e] != []
    ensures Flat(v.chain, v.queue[e]) != []
  {
    assert QueueOk(m, v, e);
  }

  lemma InputMore(m0: Memory, v0: View, xs: seq<Transfer>, chain: seq<seq<int>>, e: int, t: int, c: seq<int>)
    requires Ok(m0, v0) && 0 <= e < |m0.eps| && v0.use[e] == Listed && InputCells(m0.xs, v0.chain, v0.queue[e])
    requires Flat(chain, v0.queue[e] + [t]) == Flat(v0.chain, v0.queue[e]) + c && |xs| == |m0.xs|
    requires forall x :: 0 <= x < |m0.xs| && v0.owner[x].Chained? ==> xs[x] == m0.xs[x]
    requires forall k :: 0 <= k < |c| ==>
      0 <= c[k] < |xs| && xs[c[k]].pid == PID_IN && xs[c[k]].transferLength > 0
    ensures InputCells(xs, chain, v0.queue[e] + [t])
  {
    hide FreeOk, ChainsOk, QueuesOk, ListOk, RingOk, KeysOk;
    var f := Flat(v0.chain, v0.queue[e]);
    forall x | x in f + c && 0 <= x < |xs| ensures xs[x].pid == PID_IN && xs[x].transferLength > 0 {
      if x in f {
        var k := FlatMember(v0.chain, v0.queue[e], x);
        CellInChain(m0, v0, v0.queue[e][k], x);
      }
    }
  }

  // ---------------------------------------------------------------- the controller at a free cell

  /** Retired with one byte left over, and retired with none. */
  const SHORT: nat := 0x1_0000
  const FULL: nat := 0

  lemma Tokens()
    ensures !Active(SHORT) && !HasError(SHORT) && Bytes(SHORT) == 1
    ensures !Active(FULL) && !HasError(FULL) && Bytes(FULL) == 0
  {
  }

  /** A transaction of one input descriptor. */
  lemma JudgeOne(xs: seq<Transfer>, c: seq<int>)
    requires |c| == 1 && 0 <= c[0] < |xs| && xs[c[0]].pid == PID_IN
    ensures xs[c[0]].token == SHORT ==> JudgeCells(xs, c) == Done(Success, 1, true)
    ensures xs[c[0]].token == FULL ==> JudgeCells(xs, c) == Done(Success, 0, false)
    ensures Active(xs[c[0]].token) ==> JudgeCells(xs, c) == Pending
  {
    hide Active, HasError, Bytes, Judge;
    Tokens();
    var ts := Gather(xs, c);
    assert ts[..1] == ts && ts[..1][1..] == [];
    assert SumResiduals(ts[..1]) == Bytes(ts[0].token) + SumResiduals([]);
    AsyncSchedule.JudgeAt(ts, if Clean(ts[0]) then 1 else 0);
  }

  /** The controller is at the front of the queue, which holds the descriptors of three transactions. */
  lemma ThreeCells(s: AsyncSchedule, e: int)
    requires Prepared(s, e, [1, 1, 1], 0)
    ensures Fetched(s.M(), s.v, e, 0) && |Cells(s.M(), s.v, e)| == 4
    ensures var q := s.v.queue[e];
      && |q| == 3 && (forall k :: 0 <= k < 3 ==> 0 <= q[k] < |s.v.chain| && |s.v.chain[q[k]]| == 1)
      && forall k :: 0 <= k < 3 ==> Cells(s.M(), s.v, e)[k] == s.v.chain[q[k]][0]
    ensures forall k :: 0 <= k < 3 ==>
      (var x := Cells(s.M(), s.v, e)[k];
       0 <= x < s.transfers.Length && s.transfers[x].pid == PID_IN && s.transfers[x].transferLength > 0)
    ensures NoDup(Cells(s.M(), s.v, e))
  {
    hide FreeOk, ChainsOk, QueuesOk, ListOk, RingOk, KeysOk, Active;
    var q := s.v.queue[e];
    CellsLinked(s.M(), s.v, e);
    var w := Cells(s.M(), s.v, e);
    FlatThree(s.v.chain, q);
    RestartPlaceIff(s.transfers[..], s.endpoints[e].overlay.nextQTD, w);
    FrontPlace(s, e);
    assert forall k :: 0 <= k < 3 ==> w[k] == Flat(s.v.chain, q)[k] && w[k] in Flat(s.v.chain, q);
  }

  lemma FrontPlace(s: AsyncSchedule, e: int)
    requires s.Valid() && Shape(s.M(), s.v) && 0 <= e < s.endpoints.Length && s.v.use[e] == Listed
    requires QtdAt(s.endpoints[e].overlay.nextQTD) == Cells(s.M(), s.v, e)[0]
    requires FrontSpent(s.transfers[..], Flat(s.v.chain, s.v.queue[e]), 0)
    ensures Fetched(s.M(), s.v, e, 0)
  {
    hide FreeOk, ChainsOk, QueuesOk, ListOk, RingOk, KeysOk, Active, Flat;
    CellsLinked(s.M(), s.v, e);
    var w, f := Cells(s.M(), s.v, e), Flat(s.v.chain, s.v.queue[e]);
    assert forall j :: 0 <= j < |f| ==> w[j] == f[j];
  }

  lemma FlatThree(chain: seq<seq<int>>, q: seq<int>)
    requires |q| == 3 && forall k :: 0 <= k < 3 ==> 0 <= q[k] < |chain| && |chain[q[k]]| == 1
    ensures Flat(chain, q) == [chain[q[0]][0], chain[q[1]][0], chain[q[2]][0]]
  {
    assert q[1..][1..] == [q[2]] && [q[2]][1..] == [];
    assert Flat(chain, [q[2]]) == chain[q[2]] + Flat(chain, []);
    assert Flat(chain, q[1..]) == chain[q[1]] + Flat(chain, [q[2]]);
  }

  /** Three input transactions of one descriptor each are queued. */
  method QueueThree() returns (s: AsyncSchedule, ok: bool, e: int)
    ensures fresh(s) && fresh(s.transfers) && fresh(s.endpoints) && s.Valid()
    ensures if ok then Prepared(s, e, [1, 1, 1], 0) else s.timedOut
  {
    hide Prepared, AsyncSchedule.Valid;
    assert TransferCount(512) == 1 && [] + [1] == [1] && [1] + [1] == [1, 1] && [1, 1] + [1] == [1, 1, 1];
    ghost var f;
    s, ok, f := Start();
    e := NIL;
    if ok {
      ok := Submit(s, 512, [], f, [], 0);
    }
    if ok {
      ok := Submit(s, 512, [], f, [1], 0);
    }
    if ok {
      ok := Submit(s, 512, [], f, [1, 1], 0);
    }
    if ok { e := TheEndpoint(s, f, [1, 1, 1], 0); }
  }

  method TheEndpoint(s: AsyncSchedule, ghost f: int, ghost counts: seq<nat>, ghost spent: nat) returns (e: int)
    requires Prepared(s, f, counts, spent)
    ensures e == f
  {
    hide Settled, Ok, InputCells, FrontSpent;
    ghost var j;
    Answered(s, f);
    e, j := s.FindEndpointState(FUNCTION, ENDPOINT, USB_IN);
  }

  /** The controller fetches the first two descriptors, retires the first with a byte left over and the
      second with none, while the third waits. */
  method RunTwo(s: AsyncSchedule, e: int)
    requires Prepared(s, e, [1, 1, 1], 0)
    modifies s.transfers, s.endpoints
    ensures s.Valid() && Settled(s.v) && 0 <= e < s.endpoints.Length && e < |s.v.use| && s.v.use[e] == Listed
    ensures Shape(s.M(), s.v) && Fetched(s.M(), s.v, e, 2)
    ensures TwoRetired(s.transfers[..], s.v, e)
  {
    hide Ok, Cells, PlacesKept;
    ThreeCells(s, e);
    ghost var w := Cells(s.M(), s.v, e);
    var x := QtdAt(s.endpoints[e].overlay.nextQTD);
    s.ControllerFetches(e, 0);
    var y := QtdAt(s.endpoints[e].overlay.nextQTD);
    s.ControllerFetches(e, 1);
    Tokens();
    s.ControllerRetires(e, x, SHORT, 2, 0);
    s.ControllerRetires(e, y, FULL, 2, 1);
  }

  /** Of three transactions of one input descriptor each the first has retired short, the second fully and
      the third not. */
  ghost predicate TwoRetired(xs: seq<Transfer>, v: View, e: int)
  {
    && 0 <= e < |v.queue| && |v.queue[e]| == 3
    && (forall k :: 0 <= k < 3 ==>
          (var t := v.queue[e][k];
           0 <= t < |v.chain| && |v.chain[t]| == 1 && 0 <= v.chain[t][0] < |xs| && xs[v.chain[t][0]].pid == PID_IN))
    && xs[v.chain[v.queue[e][0]][0]].token == SHORT && xs[v.chain[v.queue[e][1]][0]].token == FULL
    && Active(xs[v.chain[v.queue[e][2]][0]].token)
  }

  /** Then the driver completes what is finished, and the controller is left at a free cell, unless a wait
      for it has timed out. */
  method Stranded() returns (s: AsyncSchedule, e: int)
    ensures s.Valid() && (s.timedOut || (0 <= e < s.endpoints.Length && AtFree(s.M(), s.v, e)))
  {
    hide Settled, AtFree, Ok, InputCells, TwoRetired, HasPlace, Fetched;
    var ok;
    s, ok, e := QueueThree();
    if ok {
      RunTwo(s, e);
      ghost var m0, v0 := s.M(), s.v;
      StandsFetched(m0, v0, e, 2);
      s.CompleteAsyncTransactions();
      if !s.timedOut { TwoCompleted(s, e, m0, v0); }
    }
  }

  lemma StandsFetched(m: Memory, v: View, e: int, i: nat)
    requires Shape(m, v) && 0 <= e < |m.eps| && Fetched(m, v, e, i)
    ensures Stands(m, v, e)
  {
    PlaceStands(m, v, e);
  }

  lemma TwoCompleted(s: AsyncSchedule, e: int, m0: Memory, v0: View)
    requires TwoRetired(m0.xs, v0, e) && e < |v0.use| && v0.use[e] == Listed && e < |s.v.queue|
    requires Shape(m0, v0) && Stands(m0, v0, e)
    requires s.FatesAre(Verdicts(m0.xs, v0.chain), m0, v0) && e < s.endpoints.Length
    requires s.v.queue[e] == Undone(Verdicts(m0.xs, v0.chain), v0.queue[e])
    ensures AtFree(s.M(), s.v, e)
  {
    hide JudgeCells, Active, AtFree, LeavesPlace, Stands, HasPlace;
    var ds, q := Verdicts(m0.xs, v0.chain), v0.queue[e];
    JudgeOne(m0.xs, v0.chain[q[0]]);
    JudgeOne(m0.xs, v0.chain[q[1]]);
    JudgeOne(m0.xs, v0.chain[q[2]]);
    assert q[1..][1..] == q[2..];
    assert Undone(ds, q) == Undone(ds, q[1..]) == Undone(ds, q[2..]) == q[2..];
    assert NeedsRepair(ds, q[0]) && !NeedsRepair(ds, q[1]);
  }

  // ---------------------------------------------------------------- a controller faster than the driver

  /** The first of two transactions of one input descriptor each is queued and retired by the controller before
      the driver restarts it there.  Completing that transaction, which needs no repair, leaves the controller
      at a free cell, unless a wait for it has timed out. */
  method Overtaken() returns (s: AsyncSchedule, e: int)
    ensures s.Valid() && (s.timedOut || (0 <= e < s.endpoints.Length && AtFree(s.M(), s.v, e)))
  {
    hide Prepared, AsyncSchedule.Valid, AtFree, AsyncSchedule.FatesAre, Undone, JudgeCells;
    assert TransferCount(512) == 1 && [] + [1] == [1] && [1] + [1] == [1, 1];
    var ok;
    ghost var f;
    e := NIL;
    s, ok, f := Start();
    if ok {
      ok := Submit(s, 512, [FULL], f, [], 0);
    }
    if ok {
      ok := Submit(s, 512, [], f, [1], 1);
    }
    if ok {
      e := TheEndpoint(s, f, [1, 1], 1);
      ghost var m0, v0 := s.M(), s.v;
      FirstRetired(s, e);
      s.CompleteAsyncTransactions();
      if !s.timedOut { FirstCompleted(s, e, m0, v0); }
    }
  }

  /** Of two transactions of one input descriptor each the controller is at the first, which has retired. */
  ghost predicate OneRetired(m: Memory, v: View, e: int)
  {
    && Shape(m, v) && 0 <= e < |m.eps| && v.use[e] == Listed && |v.queue[e]| == 2
    && (forall k :: 0 <= k < 2 ==>
          (var t := v.queue[e][k];
           0 <= t < |v.chain| && |v.chain[t]| == 1 && 0 <= v.chain[t][0] < |m.xs|
           && m.xs[v.chain[t][0]].pid == PID_IN))
    && m.xs[v.chain[v.queue[e][0]][0]].token == FULL && Active(m.xs[v.chain[v.queue[e][1]][0]].token)
    && QtdAt(m.eps[e].overlay.nextQTD) == v.chain[v.queue[e][0]][0] && Stands(m, v, e)
  }

  lemma FirstRetired(s: AsyncSchedule, e: int)
    requires Prepared(s, e, [1, 1], 1)
    ensures s.Valid() && Settled(s.v) && OneRetired(s.M(), s.v, e)
  {
    hide FreeOk, ChainsOk, QueuesOk, ListOk, RingOk, KeysOk, Active;
    var q := s.v.queue[e];
    CellsLinked(s.M(), s.v, e);
    FlatTwo(s.v.chain, q);
    var f, w := Flat(s.v.chain, q), Cells(s.M(), s.v, e);
    assert forall k :: 0 <= k < 2 ==> w[k] == f[k] && f[k] in f;
    assert w[0] in w;
  }

  lemma FlatTwo(chain: seq<seq<int>>, q: seq<int>)
    requires |q| == 2 && forall k :: 0 <= k < 2 ==> 0 <= q[k] < |chain| && |chain[q[k]]| == 1
    ensures Flat(chain, q) == [chain[q[0]][0], chain[q[1]][0]]
  {
    assert q[1..] == [q[1]] && [q[1]][1..] == [];
    assert Flat(chain, [q[1]]) == chain[q[1]] + Flat(chain, []);
  }

  lemma FirstCompleted(s: AsyncSchedule, e: int, m0: Memory, v0: View)
    requires OneRetired(m0, v0, e) && e < |s.v.queue|
    requires s.FatesAre(Verdicts(m0.xs, v0.chain), m0, v0) && e < s.endpoints.Length
    requires s.v.queue[e] == Undone(Verdicts(m0.xs, v0.chain), v0.queue[e])
    ensures AtFree(s.M(), s.v, e)
  {
    hide JudgeCells, Active, AtFree, LeavesPlace, Stands, HasPlace;
    var ds, q := Verdicts(m0.xs, v0.chain), v0.queue[e];
    JudgeOne(m0.xs, v0.chain[q[0]]);
    JudgeOne(m0.xs, v0.chain[q[1]]);
    assert Undone(ds, q) == Undone(ds, q[1..]) == q[1..];
    assert q[..1] == [q[0]] && [q[0]][1..] == [];
    assert Flat(v0.chain, [q[0]]) == v0.chain[q[0]] + Flat(v0.chain, []);
    assert !NeedsRepair(ds, q[0]) && v0.chain[q[0]][0] in Flat(v0.chain, q[..1]);
  }

  /** A transaction of two descriptors of which the controller retires the first before the driver restarts it
      there: the transaction is not done, and the controller waits at the retired descriptor, without a place,
      unless a wait for it has timed out. */
  method Waiting() returns (s: AsyncSchedule, t: int)
    ensures s.Valid() && (s.timedOut || exists e :: WaitsAt(s.M(), s.v, e, t))
  {
    hide Prepared, Ok, WaitsAt;
    assert TransferCount(CHUNK + 512) == 2 && [] + [2] == [2];
    var ok;
    ghost var f;
    t := NIL;
    s, ok, f := Start();
    if ok {
      ok := Submit(s, CHUNK + 512, [FULL], f, [], 0);
    }
    if ok {
      var e := TheEndpoint(s, f, [2], 1);
      HalfRetired(s, e);
      s.QueueFacts(e);
      t := s.endpoints[e].transactionHead;
    }
  }

  /** The head transaction t of endpoint e is not done, and the controller is at a descriptor of it that it
      does not fetch. */
  ghost predicate WaitsAt(m: Memory, v: View, e: int, t: int)
  {
    && Shape(m, v) && 0 <= e < |m.eps| && v.use[e] == Listed && v.queue[e] == [t] && 0 <= t < |v.chain|
    && JudgeCells(m.xs, v.chain[t]) == Pending && !HasPlace(m, v, e)
    && var x := QtdAt(m.eps[e].overlay.nextQTD); x in v.chain[t] && 0 <= x < |m.xs| && !Active(m.xs[x].token)
  }

  lemma HalfRetired(s: AsyncSchedule, e: int)
    requires Prepared(s, e, [2], 1)
    ensures s.Valid() && 0 <= e < s.endpoints.Length && e < |s.v.use| && s.v.use[e] == Listed
    ensures e < |s.v.queue| && |s.v.queue[e]| == 1 && WaitsAt(s.M(), s.v, e, s.v.queue[e][0])
  {
    hide FreeOk, ChainsOk, QueuesOk, ListOk, RingOk, KeysOk, Active, JudgeCells, HasPlace;
    var q := s.v.queue[e];
    CellsLinked(s.M(), s.v, e);
    var w, c := Cells(s.M(), s.v, e), s.v.chain[q[0]];
    assert q == [q[0]] && q[1..] == [] && Flat(s.v.chain, q) == c + Flat(s.v.chain, []);
    var f := Flat(s.v.chain, q);
    assert f == c && w[0] == f[0] && w[1] == f[1] && f[0] in f && f[1] in f;
    FrontPlacedIff(s.M(), s.v, e);
    Tokens();
    JudgeHalf(s.transfers[..], c);
  }

  lemma JudgeHalf(xs: seq<Transfer>, c: seq<int>)
    requires |c| == 2 && forall k :: 0 <= k < 2 ==> 0 <= c[k] < |xs|
    requires xs[c[0]].token == FULL && Active(xs[c[1]].token)
    ensures JudgeCells(xs, c) == Pending
  {
    hide Active, HasError, Bytes, Judge;
    Tokens();
    AsyncSchedule.JudgeAt(Gather(xs, c), 1);
  }

  // ---------------------------------------------------------------- bytes moved behind a gap

  /** The controller is at the front of the queue, which holds one transaction of two descriptors. */
  lemma TwoCells(s: AsyncSchedule, e: int)
    requires Prepared(s, e, [2], 0)
    ensures Fetched(s.M(), s.v, e, 0) && |Cells(s.M(), s.v, e)| == 3 && NoDup(Cells(s.M(), s.v, e))
    ensures var q := s.v.queue[e];
      |q| == 1 && 0 <= q[0] < |s.v.chain| && |s.v.chain[q[0]]| == 2
      && forall k :: 0 <= k < 2 ==> Cells(s.M(), s.v, e)[k] == s.v.chain[q[0]][k]
    ensures forall k :: 0 <= k < 2 ==>
      (var x := Cells(s.M(), s.v, e)[k];
       0 <= x < s.transfers.Length && s.transfers[x].pid == PID_IN && s.transfers[x].transferLength > 0)
  {
    hide FreeOk, ChainsOk, QueuesOk, ListOk, RingOk, KeysOk, Active;
    var q := s.v.queue[e];
    CellsLinked(s.M(), s.v, e);
    var w := Cells(s.M(), s.v, e);
    assert q[1..] == [] && Flat(s.v.chain, q) == s.v.chain[q[0]] + Flat(s.v.chain, []);
    FrontPlace(s, e);
    assert forall k :: 0 <= k < 2 ==> w[k] == Flat(s.v.chain, q)[k] && w[k] in Flat(s.v.chain, q);
  }

  /** The controller retires the first descriptor with a byte left over and the second with none. */
  method RunBoth(s: AsyncSchedule, e: int)
    requires Prepared(s, e, [2], 0)
    modifies s.transfers, s.endpoints
    ensures s.Valid() && 0 <= e < s.endpoints.Length && e < |s.v.use| && s.v.use[e] == Listed
    ensures e < |s.v.queue| && |s.v.queue[e]| == 1
    ensures GapBehind(s.transfers[..], s.v, s.v.queue[e][0])
  {
    hide Ok, Cells, PlacesKept, NoGap, JudgeCells, Gather, RetiredCount;
    TwoCells(s, e);
    ghost var w := Cells(s.M(), s.v, e);
    var x := QtdAt(s.endpoints[e].overlay.nextQTD);
    s.ControllerFetches(e, 0);
    var y := QtdAt(s.endpoints[e].overlay.nextQTD);
    s.ControllerFetches(e, 1);
    Tokens();
    s.ControllerRetires(e, x, SHORT, 2, 0);
    s.ControllerRetires(e, y, FULL, 2, 1);
    GapTwo(s.transfers[..], s.v.chain[s.v.queue[e][0]]);
  }

  /** Transaction t is done and its descriptors moved a byte behind one they did not. */
  ghost predicate GapBehind(xs: seq<Transfer>, v: View, t: int)
  {
    && 0 <= t < |v.chain| && (forall i :: 0 <= i < |v.chain[t]| ==> 0 <= v.chain[t][i] < |xs|)
    && var ts := Gather(xs, v.chain[t]);
      Judge(ts) == Done(Success, 1, false) && RetiredCount(ts) == 2 && !NoGap(ts, 2)
  }

  lemma GapTwo(xs: seq<Transfer>, c: seq<int>)
    requires |c| == 2 && forall k :: 0 <= k < 2 ==>
      0 <= c[k] < |xs| && xs[c[k]].pid == PID_IN && xs[c[k]].transferLength > 0
    requires xs[c[0]].token == SHORT && xs[c[1]].token == FULL
    ensures var ts := Gather(xs, c);
      Judge(ts) == Done(Success, 1, false) && RetiredCount(ts) == 2 && !NoGap(ts, 2)
  {
    hide Active, HasError, Bytes, Judge;
    Tokens();
    var ts := Gather(xs, c);
    assert ts[..2] == ts && ts[1..][1..] == [];
    assert SumResiduals(ts[1..]) == Bytes(ts[1].token) + SumResiduals([]);
    AsyncSchedule.JudgeAt(ts, 2);
    AsyncSchedule.CleanCountIs(ts, 2);
  }

  /** A transaction of two descriptors completes with a byte handed out that was not moved in place of
      one that was, unless a wait for the controller has timed out. */
  method GapReached() returns (s: AsyncSchedule, t: int)
    ensures s.Valid() && (s.timedOut || GapBehind(s.transfers[..], s.v, t))
  {
    hide Prepared, Ok, GapBehind;
    assert TransferCount(CHUNK + 512) == 2 && [] + [2] == [2];
    var ok;
    ghost var f;
    t := NIL;
    s, ok, f := Start();
    if ok {
      ok := Submit(s, CHUNK + 512, [], f, [], 0);
    }
    if ok {
      var e := TheEndpoint(s, f, [2], 0);
      RunBoth(s, e);
      s.QueueFacts(e);
      t := s.endpoints[e].transactionHead;
    }
  }
}
