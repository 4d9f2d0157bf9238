/**
 Queue element transfer descriptors (EHCI 1.0, section 3.5) as words: how a buffer is cut into
 descriptors, what a token says, and how the driver judges the descriptors of one transaction.
 */
module EhciTransfers {
  import opened Chains
  import opened Modular

  const CHUNK: nat := 0x5000
  const PAGE: nat := 0x1000
  const WORD: nat := 0x1_0000_0000
  const TERMINATE: nat := 1

  const USB_OUT: nat := 0
  const USB_IN: nat := 1
  const USB_ANY: nat := 3

  const PID_OUT: nat := 0
  const PID_IN: nat := 1
  const PID_SETUP: nat := 2

  const TOGGLE: nat := 0x8000_0000

  datatype IOStatus = Success | DMAError | Overrun | NotResponding | PipeStalled | Aborted | NoMemory
    | BadArgument | EndpointNotFound | Timeout | Unsupported | Busy

  /** A pool cell: the driver's record of one descriptor together with the descriptor's words. */
  datatype Transfer = Transfer(nextFree: int, nextTransfer: int, transaction: int, transferLength: nat, pid: nat,
                               nextQTD: nat, altNextQTD: nat, token: nat, buffer: seq<nat>)

  // ---------------------------------------------------------------- links

  /** Descriptors are 32-byte aligned; zero and the terminate bit name no descriptor. */
  function QtdPhys(cell: int): (phys: nat)
    requires cell >= NIL
    ensures QtdAt(phys) == cell
  {
    32 * (cell + 1)
  }

  function QtdAt(phys: nat): int
  {
    if phys % 32 == 0 then phys / 32 - 1 else NIL
  }

  // ---------------------------------------------------------------- tokens

  predicate Active(token: nat) { token / 0x80 % 2 == 1 }

  /** Any of halted, data buffer error, babble, transaction error, missed micro-frame, split state. */
  predicate HasError(token: nat) { token % 0x80 / 2 != 0 }

  function Bytes(token: nat): (bytes: nat)
    ensures bytes < 0x8000
  {
    token / 0x10000 % 0x8000
  }

  function TokenStatus(token: nat): IOStatus
  {
    if token / 0x20 % 2 == 1 then DMAError
    else if token / 0x10 % 2 == 1 then Overrun
    else if token / 0x8 % 2 == 1 || token / 0x4 % 2 == 1 || token / 0x2 % 2 == 1 then NotResponding
    else if token / 0x40 % 2 == 1 then PipeStalled
    else Success
  }

  function MakeToken(pid: nat, size: nat, last: bool, toggle: bool): nat
  {
    0x80 + 3 * 0x400 + pid * 0x100 + size * 0x10000 + (if last then 0x8000 else 0) + (if toggle then TOGGLE else 0)
  }

  /** A fresh token is active and error free, fits a word, and its byte count and packet identifier
      read back unchanged. */
  lemma TokenReadsBack(pid: nat, size: nat, last: bool, toggle: bool)
    requires pid < 4 && size < 0x8000
    ensures var token := MakeToken(pid, size, last, toggle);
      && token < WORD && Active(token) && !HasError(token)
      && Bytes(token) == size && token / 0x100 % 4 == pid && token % 0x80 == 0 && token / 0x400 % 32 == 3
      && (token / 0x8000 % 2 == 1 <==> last) && (token / TOGGLE == 1 <==> toggle)
  {
    var low := 0xC80 + pid * 0x100 + if last then 0x8000 else 0;
    var high := size + if toggle then 0x8000 else 0;
    var token := 0x10000 * high + low;
    assert token == MakeToken(pid, size, last, toggle);
    ModUnique(token, high, low, 0x10000);
    FieldBelow(high, low, 0x80, 2, 0x100);
    FieldBelow(high, low, 0x1, 0x80, 0x200);
    FieldBelow(high, low, 0x100, 4, 0x40);
    FieldBelow(high, low, 0x400, 32, 2);
    FieldBelow(high, low, 0x8000, 2, 1);
    LowBits(pid, last);
    TopBit(token, high, low);
  }

  lemma LowBits(pid: nat, last: bool)
    requires pid < 4
    ensures var low := 0xC80 + pid * 0x100 + if last then 0x8000 else 0;
      && low < 0x10000 && low / 0x80 % 2 == 1 && low / 1 % 0x80 == 0 && low / 0x100 % 4 == pid
      && low / 0x400 % 32 == 3
      && low / 0x8000 % 2 == if last then 1 else 0
  {
  }

  lemma TopBit(token: nat, high: nat, low: nat)
    requires token == 0x10000 * high + low && low < 0x10000 && high < 0x10000
    ensures token / TOGGLE == if high >= 0x8000 then 1 else 0
  {
  }

  lemma Bits7(x: nat)
    requires x < 0x80
    ensures x / 2 == 0 <==>
      (x / 0x40 % 2 == 0 && x / 0x20 % 2 == 0 && x / 0x10 % 2 == 0 && x / 0x8 % 2 == 0
       && x / 0x4 % 2 == 0 && x / 0x2 % 2 == 0)
  {
  }

  /** An error status is reported exactly for a token with an error bit. */
  lemma StatusIsError(token: nat)
    ensures TokenStatus(token) != Success <==> HasError(token)
  {
    var h, x := token / 0x80, token % 0x80;
    assert token == 0x80 * h + x;
    FieldBelow(h, x, 0x40, 2, 1);
    FieldBelow(h, x, 0x20, 2, 2);
    FieldBelow(h, x, 0x10, 2, 4);
    FieldBelow(h, x, 0x8, 2, 8);
    FieldBelow(h, x, 0x4, 2, 16);
    FieldBelow(h, x, 0x2, 2, 32);
    Bits7(x);
  }

  /** The status that stands for a token: a data buffer error (bit 5) before babble (bit 4) before a
      transaction error, missed micro-frame or split state (bits 3 to 1) before a halt alone (bit 6). */
  ghost predicate StandsFor(status: IOStatus, token: nat)
  {
    var none := token / 0x8 % 2 == 0 && token / 0x4 % 2 == 0 && token / 0x2 % 2 == 0;
    && status in {Success, DMAError, Overrun, NotResponding, PipeStalled}
    && (status == DMAError <==> token / 0x20 % 2 == 1)
    && (status == Overrun <==> token / 0x10 % 2 == 1 && token / 0x20 % 2 == 0)
    && (status == NotResponding <==> !none && token / 0x10 % 2 == 0 && token / 0x20 % 2 == 0)
    && (status == PipeStalled <==> token / 0x40 % 2 == 1 && none && token / 0x10 % 2 == 0 && token / 0x20 % 2 == 0)
  }

  lemma TokenStatusIs(token: nat)
    ensures StandsFor(TokenStatus(token), token)
  {
  }

  // ---------------------------------------------------------------- cutting a buffer

  function TransferCount(size: nat): (count: nat)
    ensures count >= 1
  {
    if size == 0 then 1 else (size + CHUNK - 1) / CHUNK
  }

  /** The count as the driver computes it, in 32 bits. */
  function TransferCount32(size: nat): nat
  {
    if size == 0 then 1 else (size + CHUNK - 1) % WORD / CHUNK
  }

  /** The 32-bit count is right exactly when rounding the size up does not overflow. */
  lemma CountExactIff(size: nat)
    requires size < WORD
    ensures TransferCount32(size) == TransferCount(size) <==> size + CHUNK - 1 < WORD
  {
  }

  function Offset(k: nat): nat { k * CHUNK }

  /** The size of descriptor k of a transfer of `size` bytes. */
  function ChunkSize(size: nat, k: nat): nat
    requires Offset(k) <= size
  {
    if size - Offset(k) > CHUNK then CHUNK else size - Offset(k)
  }

  /** The descriptors of a transfer cover [0, size) in order without gap or overlap: each starts where
      the one before ends, the last ends at `size`, and only a transfer of no bytes has an empty one. */
  lemma ChunksCover(size: nat, k: nat)
    requires k < TransferCount(size)
    ensures Offset(k) <= size && ChunkSize(size, k) <= CHUNK < 0x8000
    ensures Offset(k) + ChunkSize(size, k) == if k + 1 < TransferCount(size) then Offset(k + 1) else size
    ensures size > 0 ==> ChunkSize(size, k) > 0
  {
  }

  /** Every byte of the buffer lies in exactly one descriptor. */
  lemma ByteInOneChunk(size: nat, b: nat, k: nat)
    requires b < size && k < TransferCount(size)
    ensures Offset(k) <= size
    ensures b / CHUNK < TransferCount(size)
    ensures Offset(k) <= b < Offset(k) + ChunkSize(size, k) <==> k == b / CHUNK
  {
  }

  /** The five buffer pointer words of a descriptor whose data starts `offset` bytes into the bounce
      buffer: the start address, then the four pages behind it. */
  function BufferPointers(base: nat, offset: nat): (ptrs: seq<nat>)
    ensures |ptrs| == 5
  {
    var start := (base + offset) % WORD;
    var page := start / PAGE * PAGE;
    [start, (page + PAGE) % WORD, (page + 2 * PAGE) % WORD, (page + 3 * PAGE) % WORD, (page + 4 * PAGE) % WORD]
  }

  /** The page pointer the controller selects for byte k of a descriptor: the current offset is kept
      in the low bits of pointer 0 (EHCI 1.0, section 3.5.4). */
  function PageSelect(ptrs: seq<nat>, k: nat): nat
    requires |ptrs| == 5
  {
    (ptrs[0] % PAGE + k) / PAGE
  }

  /** The address the controller accesses for byte k of a descriptor. */
  function ByteAddress(ptrs: seq<nat>, k: nat): nat
    requires |ptrs| == 5 && PageSelect(ptrs, k) < 5
  {
    ptrs[PageSelect(ptrs, k)] / PAGE * PAGE + (ptrs[0] % PAGE + k) % PAGE
  }

  /** The page pointers reach all bytes of a descriptor exactly when it does not span six pages. */
  lemma PagesReachExactly(base: nat, offset: nat, size: nat)
    requires 0 < size <= CHUNK && base + offset + size <= WORD
    ensures (forall k :: 0 <= k < size ==> PageSelect(BufferPointers(base, offset), k) < 5)
      <==> (base + offset) % PAGE + size <= 5 * PAGE
  {
    var ptrs := BufferPointers(base, offset);
    assert ptrs[0] == base + offset;
    var last := size - 1;
    assert PageSelect(ptrs, last) < 5 <==> ptrs[0] % PAGE + last < 5 * PAGE;
    forall k | 0 <= k < size && ptrs[0] % PAGE + size <= 5 * PAGE ensures PageSelect(ptrs, k) < 5 {
    }
  }

  /** Whenever a page pointer is selected, byte k of the descriptor is the byte k behind its start in
      the bounce buffer. */
  lemma PointersReachByte(base: nat, offset: nat, size: nat, k: nat)
    requires base + offset + size <= WORD && k < size
    requires PageSelect(BufferPointers(base, offset), k) < 5
    ensures ByteAddress(BufferPointers(base, offset), k) == base + offset + k
  {
    hide BufferPointers;
    var start := base + offset;
    var o := start % PAGE + k;
    var i := o / PAGE;
    assert start == start / PAGE * PAGE + start % PAGE;
    assert o == i * PAGE + o % PAGE;
    PointerAt(base, offset, 0);
    PointerAt(base, offset, i);
  }

  /** Pointer i names the i-th page from the one the data starts in. */
  lemma PointerAt(base: nat, offset: nat, i: nat)
    requires base + offset < WORD && i < 5 && (base + offset) / PAGE * PAGE + i * PAGE < WORD
    ensures i == 0 ==> BufferPointers(base, offset)[0] == base + offset
    ensures BufferPointers(base, offset)[i] / PAGE == (base + offset) / PAGE + i
  {
    var start := base + offset;
    var page := start / PAGE;
    ModUnique(start, 0, start, WORD);
    if i > 0 {
      ModUnique(page * PAGE + i * PAGE, 0, page * PAGE + i * PAGE, WORD);
      ModUnique(PAGE * (page + i), page + i, 0, PAGE);
      assert BufferPointers(base, offset)[i] == PAGE * (page + i);
    }
  }

  /** Descriptor k of a transfer from a page-aligned bounce buffer never spans six pages: its page
      pointers map each of its bytes to the bounce buffer byte it stands for. */
  lemma DescriptorMapsBytes(base: nat, size: nat, k: nat, b: nat)
    requires base % PAGE == 0 && base + size <= WORD && k < TransferCount(size)
    requires Offset(k) <= size && b < ChunkSize(size, k)
    ensures PageSelect(BufferPointers(base, Offset(k)), b) < 5
    ensures ByteAddress(BufferPointers(base, Offset(k)), b) == base + Offset(k) + b
  {
    ChunksCover(size, k);
    var n := ChunkSize(size, k);
    assert Offset(k) == PAGE * (5 * k);
    ModUnique(base + Offset(k), base / PAGE + 5 * k, 0, PAGE);
    PagesReachExactly(base, Offset(k), n);
    PointersReachByte(base, Offset(k), n, b);
  }

  // ---------------------------------------------------------------- judging a transaction

  datatype Verdict = Pending | Done(status: IOStatus, remainder: nat, repairQueue: bool)

  /** Retired by the controller without an error. */
  predicate Clean(t: Transfer) { !Active(t.token) && !HasError(t.token) }

  /** An input descriptor retired with bytes left over. */
  predicate Short(t: Transfer) { t.pid == PID_IN && Bytes(t.token) != 0 }

  /** How many leading descriptors are retired without an error. */
  function CleanCount(ts: seq<Transfer>): (n: nat)
    ensures n <= |ts|
    ensures forall i :: 0 <= i < n ==> Clean(ts[i])
    ensures n < |ts| ==> !Clean(ts[n])
  {
    if ts == [] || !Clean(ts[0]) then 0
    else
      assert forall i :: 1 <= i < |ts| ==> ts[i] == ts[1..][i - 1];
      1 + CleanCount(ts[1..])
  }

  /** How many descriptors the controller has finished with once the transaction is done. */
  function RetiredCount(ts: seq<Transfer>): (n: nat)
    ensures n <= |ts|
  {
    var n := CleanCount(ts);
    if n < |ts| && !Active(ts[n].token) then n + 1 else n
  }

  /** The transaction is done when all descriptors retired cleanly, when one retired with an error, or
      when an input descriptor ended short and the controller has not gone on. */
  function IsDone(ts: seq<Transfer>): bool
  {
    var n := CleanCount(ts);
    (n > 0 && (n == |ts| || Short(ts[n - 1]))) || (n < |ts| && !Active(ts[n].token))
  }

  function SumLengths(ts: seq<Transfer>): nat
  {
    if ts == [] then 0 else ts[0].transferLength + SumLengths(ts[1..])
  }

  function SumResiduals(ts: seq<Transfer>): nat
  {
    if ts == [] then 0 else Bytes(ts[0].token) + SumResiduals(ts[1..])
  }

  /** The verdict on the descriptors of a transaction: the bytes left over are the residuals of the
      retired descriptors and the full lengths of the others. */
  function Judge(ts: seq<Transfer>): Verdict
  {
    if !IsDone(ts) then Pending
    else
      var n := CleanCount(ts);
      var p := RetiredCount(ts);
      Done(if p > n then TokenStatus(ts[n].token) else Success,
           SumResiduals(ts[..p]) + SumLengths(ts[p..]),
           p > n || Short(ts[n - 1]))
  }

  /** The first p descriptors have retired, only the last of them perhaps with an error, and the next one has
      not or will not after the error. */
  ghost predicate RetiredTo(ts: seq<Transfer>, p: nat)
  {
    && p <= |ts| && (forall i :: 0 <= i < p ==> ts[i].token / 0x80 % 2 == 0)
    && (forall i :: 0 <= i < p - 1 ==> ts[i].token % 0x80 / 2 == 0)
    && (p == |ts| || ts[p].token / 0x80 % 2 == 1 || (p > 0 && ts[p - 1].token % 0x80 / 2 != 0))
  }

  /** The verdict follows from the last of the descriptors that have retired: the transaction is done if that
      is the last of all, has an error or is an input descriptor that left bytes over; its status stands for
      that token; and the queue needs repair in the latter two cases. */
  lemma VerdictIs(ts: seq<Transfer>, p: nat)
    requires RetiredTo(ts, p)
    ensures p == RetiredCount(ts)
    ensures Judge(ts).Done? <==>
      p > 0 && (p == |ts| || ts[p - 1].token % 0x80 / 2 != 0
                || (ts[p - 1].pid == PID_IN && ts[p - 1].token / 0x10000 % 0x8000 != 0))
    ensures Judge(ts).Done? ==> StandsFor(Judge(ts).status, ts[p - 1].token)
    ensures Judge(ts).Done? ==>
      (Judge(ts).repairQueue <==> ts[p - 1].token % 0x80 / 2 != 0
                                  || (ts[p - 1].pid == PID_IN && ts[p - 1].token / 0x10000 % 0x8000 != 0))
  {
    hide TokenStatus, StandsFor;
    if p > 0 {
      TokenStatusIs(ts[p - 1].token);
      StatusIsError(ts[p - 1].token);
    }
  }

  lemma RetiredToIs(ts: seq<Transfer>)
    ensures RetiredTo(ts, RetiredCount(ts))
  {
  }

  /** Bytes the controller moved for retired descriptors. */
  function Moved(ts: seq<Transfer>): int
  {
    if ts == [] then 0 else ts[0].transferLength - Bytes(ts[0].token) + Moved(ts[1..])
  }

  lemma {:induction false} SumLengthsConcat(xs: seq<Transfer>, ys: seq<Transfer>)
    ensures SumLengths(xs + ys) == SumLengths(xs) + SumLengths(ys)
  {
    if xs == [] {
      assert xs + ys == ys;
    } else {
      assert (xs + ys)[1..] == xs[1..] + ys;
      SumLengthsConcat(xs[1..], ys);
    }
  }

  lemma {:induction false} SumResidualsConcat(xs: seq<Transfer>, ys: seq<Transfer>)
    ensures SumResiduals(xs + ys) == SumResiduals(xs) + SumResiduals(ys)
  {
    if xs == [] {
      assert xs + ys == ys;
    } else {
      assert (xs + ys)[1..] == xs[1..] + ys;
      SumResidualsConcat(xs[1..], ys);
    }
  }

  lemma {:induction false} MovedIsDifference(ts: seq<Transfer>)
    requires forall i :: 0 <= i < |ts| ==> Bytes(ts[i].token) <= ts[i].transferLength
    ensures 0 <= Moved(ts) == SumLengths(ts) - SumResiduals(ts)
  {
    if ts != [] { MovedIsDifference(ts[1..]); }
  }

  /** When a transaction is done and no residual exceeds its descriptor's length, the bytes left over
      are the transaction's length minus what the retired descriptors moved, so the driver's
      subtraction yields exactly the bytes moved and cannot go below zero. */
  lemma RemainderIsUnmoved(ts: seq<Transfer>, total: nat)
    requires Judge(ts).Done? && SumLengths(ts) == total
    requires forall i :: 0 <= i < RetiredCount(ts) ==> Bytes(ts[i].token) <= ts[i].transferLength
    ensures total - Judge(ts).remainder == Moved(ts[..RetiredCount(ts)]) >= 0
  {
    var p := RetiredCount(ts);
    MovedIsDifference(ts[..p]);
    SumLengthsConcat(ts[..p], ts[p..]);
    assert ts[..p] + ts[p..] == ts;
  }

  /** A transaction is reported as an error exactly when its last retired descriptor has an error bit. */
  lemma ErrorReportedExactly(ts: seq<Transfer>)
    requires Judge(ts).Done?
    ensures Judge(ts).status != Success <==> RetiredCount(ts) > 0 && HasError(ts[RetiredCount(ts) - 1].token)
  {
    var p := RetiredCount(ts);
    if p > 0 { StatusIsError(ts[p - 1].token); }
  }

  // ---------------------------------------------------------------- where the bytes are

  /** The controller moved byte b of the buffer for descriptor k. */
  predicate MovedBy(ts: seq<Transfer>, k: nat, b: nat)
    requires k < |ts|
  {
    Offset(k) <= b < Offset(k) + ts[k].transferLength - Bytes(ts[k].token)
  }

  ghost predicate MovedByte(ts: seq<Transfer>, p: nat, b: nat)
    requires p <= |ts|
  {
    exists k :: 0 <= k < p && MovedBy(ts, k, b)
  }

  /** No descriptor that left bytes over is followed by one that moved some. */
  ghost predicate NoGap(ts: seq<Transfer>, p: nat)
    requires p <= |ts|
  {
    forall i, j :: 0 <= i < j < p && Bytes(ts[i].token) != 0 ==> Bytes(ts[j].token) == ts[j].transferLength
  }

  /** The descriptors of a buffer of `total` bytes, none with a residual above its length. */
  ghost predicate CutFrom(ts: seq<Transfer>, total: nat)
  {
    && |ts| == TransferCount(total)
    && forall k :: 0 <= k < |ts| ==>
         (Offset(k) <= total && ts[k].transferLength == ChunkSize(total, k)
           && Bytes(ts[k].token) <= ts[k].transferLength)
  }

  lemma {:induction false} MovedConcat(xs: seq<Transfer>, ys: seq<Transfer>)
    ensures Moved(xs + ys) == Moved(xs) + Moved(ys)
  {
    if xs == [] {
      assert xs + ys == ys;
    } else {
      assert (xs + ys)[1..] == xs[1..] + ys;
      MovedConcat(xs[1..], ys);
    }
  }

  lemma MovedNext(ts: seq<Transfer>, p: nat)
    requires p < |ts|
    ensures Moved(ts[..p + 1]) == Moved(ts[..p]) + ts[p].transferLength - Bytes(ts[p].token)
  {
    assert ts[..p + 1] == ts[..p] + [ts[p]];
    MovedConcat(ts[..p], [ts[p]]);
    assert [ts[p]][1..] == [];
    assert Moved([ts[p]]) == ts[p].transferLength - Bytes(ts[p].token) + Moved([]);
  }

  ghost predicate AllFull(ts: seq<Transfer>, p: nat)
    requires p <= |ts|
  {
    forall i :: 0 <= i < p ==> Bytes(ts[i].token) == 0
  }

  /** Without a gap the bytes moved are a prefix of the buffer. */
  lemma {:induction false} PrefixMoved(ts: seq<Transfer>, total: nat, p: nat)
    requires CutFrom(ts, total) && p <= |ts| && NoGap(ts, p)
    ensures forall b: nat :: MovedByte(ts, p, b) <==> b < Moved(ts[..p])
    ensures AllFull(ts, p) ==> Moved(ts[..p]) == if p < |ts| then Offset(p) else total
  {
    if p > 0 {
      PrefixMoved(ts, total, p - 1);
      MovedNext(ts, p - 1);
      ChunksCover(total, p - 1);
      forall b: nat ensures MovedByte(ts, p, b) <==> MovedByte(ts, p - 1, b) || MovedBy(ts, p - 1, b) {
        if MovedByte(ts, p - 1, b) {
          var k :| 0 <= k < p - 1 && MovedBy(ts, k, b);
        }
      }
      if !AllFull(ts, p - 1) {
        var i :| 0 <= i < p - 1 && Bytes(ts[i].token) != 0;
        assert Bytes(ts[p - 1].token) == ts[p - 1].transferLength;
      }
    }
  }

  /** Behind a gap lies a moved byte, in front of it one that was not. */
  lemma GapFound(ts: seq<Transfer>, total: nat, p: nat) returns (missing: nat, moved: nat)
    requires CutFrom(ts, total) && p <= |ts| && !NoGap(ts, p)
    ensures missing < moved < total && !MovedByte(ts, p, missing) && MovedByte(ts, p, moved)
  {
    var i: nat, j: nat :|
      0 <= i < j < p && Bytes(ts[i].token) != 0 && Bytes(ts[j].token) != ts[j].transferLength;
    missing, moved := Offset(i) + ts[i].transferLength - Bytes(ts[i].token), Offset(j);
    ChunksCover(total, i);
    ChunksCover(total, j);
    assert MovedBy(ts, j, moved);
    forall k | 0 <= k < p ensures !MovedBy(ts, k, missing) {
      ChunksCover(total, k);
      if k < i {
        assert Offset(k + 1) <= Offset(i);
      } else if k > i {
        assert Offset(i + 1) <= Offset(k);
      }
    }
  }

  /** When a transaction is done, the bytes the driver hands out, as many from the front of the bounce
      buffer as were moved, are exactly the bytes moved if and only if no retired descriptor that
      left bytes over is followed by a retired one that moved some. */
  lemma CopiedIffNoGap(ts: seq<Transfer>, total: nat)
    requires Judge(ts).Done? && CutFrom(ts, total)
    ensures var p, n := RetiredCount(ts), total - Judge(ts).remainder;
      (forall b: nat :: b < n <==> MovedByte(ts, p, b)) <==> NoGap(ts, p)
  {
    hide Judge;
    var p := RetiredCount(ts);
    TotalLength(ts, total);
    RemainderIsUnmoved(ts, total);
    if NoGap(ts, p) {
      PrefixMoved(ts, total, p);
    } else {
      var missing, moved := GapFound(ts, total, p);
    }
  }

  lemma {:induction false} LengthsFrom(ts: seq<Transfer>, total: nat, i: nat)
    requires CutFrom(ts, total) && i <= |ts|
    ensures SumLengths(ts[i..]) == if i < |ts| then total - Offset(i) else 0
    decreases |ts| - i
  {
    if i < |ts| {
      LengthsFrom(ts, total, i + 1);
      ChunksCover(total, i);
      assert ts[i..][1..] == ts[i + 1..];
    }
  }

  lemma TotalLength(ts: seq<Transfer>, total: nat)
    requires CutFrom(ts, total)
    ensures SumLengths(ts) == total
  {
    LengthsFrom(ts, total, 0);
    assert ts[0..] == ts;
  }
}
