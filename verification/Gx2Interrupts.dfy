/**
 The GPU's interrupt ring: the GPU appends four-dword entries and advances a byte offset, the driver
 drains up to the offset it saw when it started while the GPU goes on writing.
 */
module Gx2Interrupts {
  import opened Modular

  const RING_BYTES: nat := 0x1_0000
  const ENTRY_BYTES: nat := 16
  const ENTRIES: nat := 4096

  datatype Entry = Entry(sourceID: nat, reserved1: nat, sourceData: nat, reserved3: nat)

  /** The byte offset behind n entries. */
  function Offset(n: nat): (bytes: nat)
    ensures bytes < RING_BYTES
  {
    n * ENTRY_BYTES % RING_BYTES
  }

  /** The dword index of the n-th entry. */
  function Slot(n: nat): nat { n % ENTRIES * 4 }

  lemma OffsetOfSlot(n: nat)
    ensures Offset(n) / 4 == Slot(n) && Offset(n) % ENTRY_BYTES == 0
    ensures (Offset(n) + ENTRY_BYTES) % RING_BYTES == Offset(n + 1)
  {
    var q, r := n / ENTRIES, n % ENTRIES;
    ModUnique(n * ENTRY_BYTES, q, r * ENTRY_BYTES, RING_BYTES);
    if r + 1 < ENTRIES {
      ModUnique((n + 1) * ENTRY_BYTES, q, (r + 1) * ENTRY_BYTES, RING_BYTES);
    } else {
      ModUnique((n + 1) * ENTRY_BYTES, q + 1, 0, RING_BYTES);
    }
  }

  /** Two offsets are equal exactly when the numbers of entries differ by a multiple of 4096: with that
      many outstanding, a full ring looks empty. */
  lemma SameOffsetIff(m: nat, n: nat)
    requires m <= n
    ensures Offset(m) == Offset(n) <==> (n - m) % ENTRIES == 0
  {
  }

  /** Entries fewer than 4096 apart have different slots. */
  lemma SlotsApart(m: nat, n: nat)
    requires m < n < m + ENTRIES
    ensures Slot(m) != Slot(n) && 0 <= Slot(m) <= RING_BYTES / 4 - 4 && 0 <= Slot(n) <= RING_BYTES / 4 - 4
    ensures Slot(m) + 4 <= Slot(n) || Slot(n) + 4 <= Slot(m)
  {
  }

  function EntryAt(ring: seq<nat>, n: nat): Entry
    requires |ring| == RING_BYTES / 4
  {
    Entry(ring[Slot(n)], ring[Slot(n) + 1], ring[Slot(n) + 2], ring[Slot(n) + 3])
  }

  function Min(a: nat, b: nat): nat { if a < b then a else b }

  class InterruptRing {
    var ring: array<nat>
    /** The write pointer the GPU keeps in memory, and the driver's read pointer, in bytes. */
    var wptr: nat
    var rptr: nat
    var ready: bool

    /** All entries the GPU has ever written, and all the driver has ever drained. */
    ghost var sent: seq<Entry>
    ghost var drained: seq<Entry>

    /** Fewer than 4096 entries are outstanding and still in the ring; what was drained is what was sent,
        in order, without loss or repetition. */
    ghost predicate Valid()
      reads this, ring
    {
      && ring.Length == RING_BYTES / 4
      && |drained| <= |sent| < |drained| + ENTRIES && drained == sent[..|drained|]
      && wptr == Offset(|sent|) && rptr == Offset(|drained|)
      && (forall n :: |drained| <= n < |sent| ==> EntryAt(ring[..], n) == sent[n])
    }

    constructor ()
      ensures Valid() && sent == [] && drained == [] && ready && fresh(ring)
    {
      ring := new nat[RING_BYTES / 4](i => 0);
      wptr, rptr, ready, sent, drained := 0, 0, true, [], [];
      new;
      ModUnique(0, 0, 0, RING_BYTES);
    }

    /** The GPU appends an entry, unless that would fill the ring. */
    method GpuWrites(e: Entry)
      requires Valid()
      modifies this`wptr, this`sent, ring
      ensures Valid()
      ensures sent == if |old(sent)| + 1 < |drained| + ENTRIES then old(sent) + [e] else old(sent)
    {
      if (wptr + ENTRY_BYTES) % RING_BYTES != rptr {
        ghost var n := |sent|;
        RoomIff();
        OffsetOfSlot(n);
        var slot := wptr / 4;
        ring[slot] := e.sourceID;
        ring[slot + 1] := e.reserved1;
        ring[slot + 2] := e.sourceData;
        ring[slot + 3] := e.reserved3;
        wptr := (wptr + ENTRY_BYTES) % RING_BYTES;
        sent := sent + [e];
        Kept(old(ring[..]), ring[..], |drained|, n);
      } else {
        RoomIff();
      }
    }

    lemma RoomIff()
      requires Valid()
      ensures (wptr + ENTRY_BYTES) % RING_BYTES == rptr <==> |sent| + 1 == |drained| + ENTRIES
    {
    }

    static lemma Kept(ring: seq<nat>, ring': seq<nat>, from: nat, n: nat)
      requires |ring| == |ring'| == RING_BYTES / 4 && from <= n < from + ENTRIES
      requires forall i :: 0 <= i < |ring| && !(Slot(n) <= i < Slot(n) + 4) ==> ring'[i] == ring[i]
      ensures forall k :: from <= k < n ==> EntryAt(ring', k) == EntryAt(ring, k)
    {
    }

    /** While the driver drains, the GPU may append any entries it has room for. */
    method GpuMayWrite()
      requires Valid()
      modifies this`wptr, this`sent, ring
      ensures Valid() && old(sent) <= sent
    {
      var count: nat := *;
      var i := 0;
      while i < count
        invariant Valid() && old(sent) <= sent
      {
        var e: Entry := *;
        GpuWrites(e);
        i := i + 1;
      }
    }

    /** The array holds the n entries sent after the first `from`, and behind them what it held before. */
    static ghost predicate Handed(outs: seq<Entry>, outs0: seq<Entry>, sent: seq<Entry>, from: nat, n: nat)
    {
      && |outs| == |outs0| && n <= |outs| && from + n <= |sent|
      && (forall i :: 0 <= i < n ==> outs[i] == sent[from + i])
      && (forall i :: n <= i < |outs| ==> outs[i] == outs0[i])
    }

    /** Reads the entry at a byte offset, the n-th one sent. */
    method ReadEntry(r: nat, ghost n: nat) returns (e: Entry)
      requires Valid() && |drained| <= n < |sent| && r == Offset(n)
      ensures e == sent[n] && r % 16 == 0 && r / 4 + 3 < ring.Length
      ensures e.sourceID == ring[r / 4] && e.sourceData == ring[r / 4 + 2]
    {
      OffsetOfSlot(n);
      var index := r / 4;
      e := Entry(ring[index], ring[index + 1], ring[index + 2], ring[index + 3]);
      assert e == EntryAt(ring[..], n);
    }

    /** Drains every entry written before the call, however many more the GPU appends meanwhile; the
        caller's array receives the first of them, as many as it asked for. */
    method ConsumeIHRing(outEntries: array?<Entry>, maxEntries: nat) returns (consumed: nat)
      requires Valid() && (outEntries != null ==> maxEntries <= outEntries.Length)
      modifies this`wptr, this`rptr, this`sent, this`drained, ring, outEntries
      ensures Valid() && old(sent) <= sent
      ensures !ready ==> consumed == 0 && drained == old(drained)
      ensures ready ==> drained == old(sent) && consumed == |old(sent)| - |old(drained)|
      ensures outEntries != null ==>
        Handed(outEntries[..], old(outEntries[..]), old(sent), |old(drained)|, Min(consumed, maxEntries))
    {
      hide EntryAt, Offset;
      consumed := 0;
      if !ready {
        return;
      }
      var seen := wptr;
      ghost var from, to := |drained|, |sent|;
      var r := rptr;
      Reached(from, from, to);
      assert outEntries != null ==> Handed(outEntries[..], old(outEntries[..]), old(sent), from, 0);
      while r != seen
        invariant Valid() && ready && drained == old(drained) && old(sent) <= sent
        invariant from + consumed <= to && r == Offset(from + consumed) && seen == Offset(to)
        invariant r == seen <==> from + consumed == to
        decreases |old(sent)| - |old(drained)| - consumed
        invariant outEntries == null || Handed(outEntries[..], old(outEntries[..]), old(sent), from,
                                               Min(consumed, maxEntries))
      {
        GpuMayWrite();
        var entry := ReadEntry(r, from + consumed);
        OffsetOfSlot(from + consumed);
        if outEntries != null && consumed < maxEntries {
          outEntries[consumed] := entry;
        }
        consumed := consumed + 1;
        r := (r + ENTRY_BYTES) % RING_BYTES;
        Reached(from, from + consumed, to);
      }
      rptr := r;
      drained := sent[..to];
      assert drained == old(sent);
    }

    static lemma Reached(from: nat, at: nat, to: nat)
      requires from <= at <= to < from + ENTRIES
      ensures Offset(at) == Offset(to) <==> at == to
    {
    }
  }
}
