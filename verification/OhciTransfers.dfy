/**
 General transfers on one OHCI endpoint (OpenHCI 1.0a, sections 4.2 and 4.3): the queue of transfer
 descriptors from the endpoint's head pointer to an unused dummy at its tail, and its growth by one
 client buffer.
 */
module OhciTransfers {
  import opened Chains
  import opened OhciTree

  const BOUNCE: nat := 0x100
  const JUMBO: nat := 0x800
  const NO_COMPLETION: int := -1

  /** `offset` and `size` name the piece of the client's buffer that the bounce buffer stands for. */
  datatype Descriptor = Descriptor(nextTransfer: int, nextTD: nat, bufferStart: nat, bufferEnd: nat, offset: nat,
                                   size: nat,
                                   rounding: bool, last: bool, completion: int)

  /** A descriptor fresh from the free list. */
  const UNUSED := Descriptor(NIL, 0, 0, 0, 0, 0, false, false, NO_COMPLETION)

  datatype Outcome = Submitted | PipeStalled

  function NextTransfer(tds: seq<Descriptor>): (next: seq<int>)
    ensures |next| == |tds|
  { seq(|tds|, i requires 0 <= i < |tds| => tds[i].nextTransfer) }

  function NextTD(tds: seq<Descriptor>): (next: seq<int>)
    ensures |next| == |tds|
  { seq(|tds|, i requires 0 <= i < |tds| => CellAt(tds[i].nextTD)) }

  // ---------------------------------------------------------------- cutting a buffer

  /** The number of descriptors for a buffer: one for each started 0x800 bytes, one for none. */
  function PieceCount(size: nat): (count: nat)
    ensures count >= 1
    ensures size > 0 ==> (count - 1) * JUMBO < size <= count * JUMBO
  {
    if size == 0 then 1 else (size + JUMBO - 1) / JUMBO
  }

  function PieceSize(size: nat, k: nat): nat
  {
    if size <= k * JUMBO then 0 else if size - k * JUMBO > JUMBO then JUMBO else size - k * JUMBO
  }

  /** Every byte of the buffer lies in exactly one piece. */
  lemma ByteInOnePiece(size: nat, b: nat, k: nat)
    requires b < size && k < PieceCount(size)
    ensures b / JUMBO < PieceCount(size)
    ensures k * JUMBO <= b < k * JUMBO + PieceSize(size, k) <==> k == b / JUMBO
  {
  }

  /** Piece k of a client's transfer, in memory at x and leading on to cell `next`. */
  predicate IsPiece(x: Descriptor, size: nat, k: nat, rounding: bool, completion: int, next: int)
    requires next >= NIL
  {
    var last := k + 1 == PieceCount(size);
    && x.nextTransfer == next && x.nextTD == PhysOf(next)
    && x.size == PieceSize(size, k) && (size > 0 ==> x.offset == k * JUMBO && x.bufferEnd == x.bufferStart + x.size - 1)
    && (size == 0 ==> x.bufferStart == 0 && x.bufferEnd == 0)
    && x.last == last && x.rounding == (last && rounding) && x.completion == if last then completion else NO_COMPLETION
  }

  /** The cell of piece i of a transfer: the dummy it starts at, then fresh cells behind the first n. */
  function PieceCell(dummy: int, n: nat, i: nat): int { if i == 0 then dummy else n + i - 1 }

  function PieceCells(dummy: int, n: nat, k: nat): (cells: seq<int>)
    ensures |cells| == k
  {
    seq(k, i requires 0 <= i => PieceCell(dummy, n, i))
  }

  ghost predicate PieceInPlace(tds: seq<Descriptor>, dummy: int, n: nat, size: nat, rounding: bool, completion: int,
                               i: nat)
    requires 0 <= dummy < n
  {
    && PieceCell(dummy, n, i) < |tds|
    && IsPiece(tds[PieceCell(dummy, n, i)], size, i, rounding, completion, PieceCell(dummy, n, i + 1))
  }

  /** The queue has grown by the first k pieces of a transfer, which end at the dummy `tail`; nothing
      else changed. */
  ghost predicate Grown(tds0: seq<Descriptor>, queue0: seq<int>, dummy: int, tds: seq<Descriptor>, queue: seq<int>,
                        tail: int,
                        size: nat, rounding: bool, completion: int, k: nat)
  {
    && 0 <= dummy < |tds0| && |tds| == |tds0| + k
    && queue == queue0 + PieceCells(dummy, |tds0|, k) && tail == PieceCell(dummy, |tds0|, k)
    && (forall i :: 0 <= i < k ==> PieceInPlace(tds, dummy, |tds0|, size, rounding, completion, i))
    && (forall x :: 0 <= x < |tds0| && x != dummy ==> tds[x] == tds0[x])
  }

  lemma GrownNone(tds: seq<Descriptor>, queue: seq<int>, dummy: int, size: nat, rounding: bool, completion: int)
    requires 0 <= dummy < |tds|
    ensures Grown(tds, queue, dummy, tds, queue, dummy, size, rounding, completion, 0)
  {
  }

  lemma GrownMore(tds0: seq<Descriptor>, queue0: seq<int>, dummy: int, tds: seq<Descriptor>, queue: seq<int>, tail: int,
                  size: nat, rounding: bool, completion: int, k: nat, piece: Descriptor)
    requires Grown(tds0, queue0, dummy, tds, queue, tail, size, rounding, completion, k)
    requires 0 <= tail < |tds| && IsPiece(piece, size, k, rounding, completion, |tds|)
    ensures Grown(tds0, queue0, dummy, (tds + [UNUSED])[tail := piece], queue + [tail], |tds|, size, rounding,
                  completion, k + 1)
  {
    hide IsPiece;
    var n := |tds0|;
    assert PieceCells(dummy, n, k + 1) == PieceCells(dummy, n, k) + [tail];
    var tds' := (tds + [UNUSED])[tail := piece];
    forall i | 0 <= i < k + 1 ensures PieceInPlace(tds', dummy, n, size, rounding, completion, i) {
      if i < k { assert PieceInPlace(tds, dummy, n, size, rounding, completion, i); }
    }
  }

  class TransferQueue {
    var tds: seq<Descriptor>
    var headPhys: nat
    var halted: bool
    var carry: bool
    var transferTail: int
    var tailPhys: nat
    ghost var queue: seq<int>

    /** Both the driver's and the controller's links lead from the head through the queue to the dummy. */
    ghost predicate Valid()
      reads this
    {
      && 0 <= transferTail < |tds| && tailPhys == PhysOf(transferTail)
      && NoDup(queue) && transferTail !in queue && (forall i :: 0 <= i < |queue| ==> 0 <= queue[i] < |tds|)
      && headPhys == PhysOf(if queue == [] then transferTail else queue[0])
      && Chain(NextTransfer(tds), CellAt(headPhys), queue, transferTail)
      && Chain(NextTD(tds), CellAt(headPhys), queue, transferTail)
    }

    /** An endpoint without transfers: head and tail are the same unused descriptor. */
    constructor ()
      ensures Valid() && queue == [] && !halted
    {
      tds, transferTail, queue := [UNUSED], 0, [];
      headPhys, tailPhys, halted, carry := PhysOf(0), PhysOf(0), false, false;
    }

    method GetFreeTransfer() returns (x: int)
      requires Valid()
      modifies this`tds
      ensures Valid() && x == |old(tds)| && tds == old(tds) + [UNUSED]
    {
      x := |tds|;
      tds := tds + [UNUSED];
      ChainFrame(NextTransfer(old(tds)), NextTransfer(tds), CellAt(headPhys), queue, transferTail);
      ChainFrame(NextTD(old(tds)), NextTD(tds), CellAt(headPhys), queue, transferTail);
    }

    /** The dummy becomes the descriptor `piece`, and a fresh one the new dummy. */
    method Append(piece: Descriptor, tail: int)
      requires Valid() && 0 <= tail < |tds| && tail != transferTail && tail !in queue
      modifies this`tds, this`transferTail, this`tailPhys, this`queue
      ensures Valid() && transferTail == tail && queue == old(queue) + [old(transferTail)]
      ensures tds == old(tds)[old(transferTail) := piece.(nextTransfer := tail, nextTD := PhysOf(tail))]
    {
      var curr := transferTail;
      ghost var tds0 := tds;
      tds := tds[curr := piece.(nextTransfer := tail, nextTD := PhysOf(tail))];
      transferTail := tail;
      tailPhys := PhysOf(tail);
      Extended(NextTransfer(tds0), NextTransfer(tds), CellAt(headPhys), queue, curr, tail);
      Extended(NextTD(tds0), NextTD(tds), CellAt(headPhys), queue, curr, tail);
      queue := queue + [curr];
    }

    static lemma Extended(next: seq<int>, next': seq<int>, a: int, q: seq<int>, curr: int, tail: int)
      requires Chain(next, a, q, curr) && 0 <= curr < |next| && |next'| == |next| && curr !in q
      requires next' == next[curr := tail]
      ensures Chain(next', a, q + [curr], tail)
    {
      ChainFrame(next, next', a, q, curr);
      assert [curr][1..] == [];
      ChainConcat(next', a, q, curr, [curr], tail);
    }

    /** Queues a client's buffer.  A halted queue is revived when it is empty and refused otherwise;
        else the pieces of the buffer are appended in order, only the last carrying the completion. */
    method DoGeneralTransfer(size: nat, rounding: bool, completion: int) returns (status: Outcome)
      requires Valid()
      modifies this
      ensures Valid() && carry == old(carry)
      ensures status == PipeStalled <==> old(halted) && old(queue) != []
      ensures status == PipeStalled ==>
        halted && tds == old(tds) && queue == old(queue) && transferTail == old(transferTail)
      ensures status == Submitted ==> !halted
      ensures status == Submitted ==>
        Grown(old(tds), old(queue), old(transferTail), tds, queue, transferTail, size, rounding, completion,
              PieceCount(size))
    {
      hide Grown, PieceCount, PieceSize, NoDup;
      HeadAtTail();
      if halted {
        if headPhys == PhysOf(transferTail) {
          headPhys, halted := PhysOf(transferTail), false;
        } else {
          return PipeStalled;
        }
      }
      GrownNone(tds, queue, transferTail, size, rounding, completion);
      if size > 0 {
        var offset, remaining := 0, size;
        ghost var k := 0;
        CountPositive(size);
        while offset < size
          invariant Valid() && !halted && carry == old(carry)
          invariant k <= PieceCount(size) && offset + remaining == size
          invariant offset == if k == PieceCount(size) then size else k * JUMBO
          invariant Grown(old(tds), old(queue), old(transferTail), tds, queue, transferTail, size, rounding,
                          completion, k)
          decreases remaining
        {
          PieceAt(size, k);
          var transferSize := AppendPiece(offset, remaining, size, rounding, completion, k,
                                          old(tds), old(queue), old(transferTail));
          offset := offset + transferSize;
          remaining := remaining - transferSize;
          k := k + 1;
        }
        PieceEnd(size, k);
      } else {
        AppendNone(rounding, completion, old(tds), old(queue), old(transferTail));
      }
      status := Submitted;
    }

    /** Appends the next piece of a buffer, as large as its bounce buffer allows. */
    method AppendPiece(offset: nat, remaining: nat, size: nat, rounding: bool, completion: int, ghost k: nat,
                       ghost tds0: seq<Descriptor>, ghost queue0: seq<int>, ghost tail0: int)
      returns (transferSize: nat)
      requires Valid() && k < PieceCount(size) && offset == k * JUMBO < size && remaining == size - offset
      requires Grown(tds0, queue0, tail0, tds, queue, transferTail, size, rounding, completion, k)
      modifies this`tds, this`transferTail, this`tailPhys, this`queue
      ensures Valid() && transferSize == PieceSize(size, k)
      ensures Grown(tds0, queue0, tail0, tds, queue, transferTail, size, rounding, completion, k + 1)
    {
      hide Grown, NoDup, Chain;
      PieceAt(size, k);
      ghost var tds1, queue1, curr := tds, queue, transferTail;
      var tail := GetFreeTransfer();
      var bounce, capacity := GetFreeBounceBuffer(remaining > BOUNCE);
      transferSize := if remaining > capacity then capacity else remaining;
      var last := offset + transferSize >= size;
      var piece := Descriptor(tail, PhysOf(tail), bounce, bounce + transferSize - 1, offset, transferSize,
                              last && rounding, last, if last then completion else NO_COMPLETION);
      GrownMore(tds0, queue0, tail0, tds1, queue1, curr, size, rounding, completion, k, piece);
      Append(piece, tail);
    }

    /** The physical address and capacity of a free bounce buffer, large or small. */
    static method GetFreeBounceBuffer(jumbo: bool) returns (phys: nat, capacity: nat)
      ensures capacity == if jumbo then JUMBO else BOUNCE
    {
      phys := *;
      capacity := if jumbo then JUMBO else BOUNCE;
    }

    /** Appends the one descriptor of a transfer without data. */
    method AppendNone(rounding: bool, completion: int, ghost tds0: seq<Descriptor>, ghost queue0: seq<int>,
                      ghost tail0: int)
      requires Valid() && Grown(tds0, queue0, tail0, tds, queue, transferTail, 0, rounding, completion, 0)
      modifies this`tds, this`transferTail, this`tailPhys, this`queue
      ensures Valid() && Grown(tds0, queue0, tail0, tds, queue, transferTail, 0, rounding, completion, PieceCount(0))
    {
      hide Grown, NoDup, Chain;
      ghost var tds1, queue1, curr := tds, queue, transferTail;
      var tail := GetFreeTransfer();
      var piece := Descriptor(tail, PhysOf(tail), 0, 0, 0, 0, rounding, true, completion);
      GrownMore(tds0, queue0, tail0, tds1, queue1, curr, 0, rounding, completion, 0, piece);
      Append(piece, tail);
    }

    static lemma CountPositive(size: nat)
      ensures PieceCount(size) > 0
    {
    }

    static lemma PieceEnd(size: nat, k: nat)
      requires size > 0 && k <= PieceCount(size) && (k < PieceCount(size) ==> k * JUMBO >= size)
      ensures k == PieceCount(size)
    {
    }

    /** The controller retires the first descriptor of the queue. */
    method RetireHead() returns (x: int)
      requires Valid() && queue != []
      modifies this`headPhys, this`queue
      ensures Valid() && x == old(queue)[0] && queue == old(queue)[1..]
    {
      x := CellAt(headPhys);
      ChainLink(NextTD(tds), x, queue, transferTail, 0);
      ChainLink(NextTransfer(tds), x, queue, transferTail, 0);
      assert forall y :: y in queue[1..] ==> y in queue;
      headPhys := PhysOf(if CellAt(tds[x].nextTD) >= NIL then CellAt(tds[x].nextTD) else NIL);
      queue := queue[1..];
    }

    lemma HeadAtTail()
      requires Valid()
      ensures headPhys == PhysOf(transferTail) <==> queue == []
    {
    }

    static lemma PieceAt(size: nat, k: nat)
      requires size > 0 && k < PieceCount(size)
      ensures k * JUMBO < size && PieceSize(size, k) > 0
      ensures k * JUMBO + PieceSize(size, k) == if k + 1 == PieceCount(size) then size else (k + 1) * JUMBO
      ensures (k + 1 == PieceCount(size)) == (size - k * JUMBO <= JUMBO)
    {
    }
  }
}
