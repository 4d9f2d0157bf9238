/**
 The GPU's command ring: packets written dword by dword into a power-of-two ring, and the command
 processor's way of reading them back by the counts in their headers.
 */
module Gx2Ring {
  import opened Gx2Fences
  import opened Modular

  const RING: nat := 16384

  const OP_INDIRECT_BUFFER: nat := 0x32
  const OP_WAIT_REG_MEM: nat := 0x3C
  const OP_SURFACE_SYNC: nat := 0x43
  const OP_EVENT_WRITE_EOP: nat := 0x47
  const OP_SET_CONFIG_REG: nat := 0x68
  const OP_SET_CONTEXT_REG: nat := 0x69
  const OP_SET_RESOURCE: nat := 0x6D
  const CONFIG_REG_BASE: nat := 0x8000
  const CONTEXT_REG_BASE: nat := 0x28000
  const RESOURCE_BASE: nat := 0x38000

  /** Texture, vertex and shader caches invalidated, colour and depth buffers flushed, full cache. */
  const COHER_ALL: nat := 0x80_0000 + 0x100_0000 + 0x800_0000 + 0x200_0000 + 0x400_0000 + 0x10_0000
  const EOP_EVENT: nat := 0x14 + 0x500
  const EOP_LOW32: nat := 0x2000_0000

  /** A type-3 packet: an opcode and one to 0x4000 dwords of body. */
  datatype Packet = Packet(op: nat, body: seq<nat>)

  predicate WellFormed(p: Packet) { p.op < 0x100 && 1 <= |p.body| <= 0x4000 }

  /** The header of a packet whose body has n + 1 dwords. */
  function Header(op: nat, n: int): nat
  {
    0xC000_0000 + op % 0x100 * 0x100 + n % 0x4000 * 0x1_0000
  }

  function HeaderType(h: nat): nat { h / 0x4000_0000 }

  function HeaderCount(h: nat): nat { h / 0x1_0000 % 0x4000 }

  function HeaderOp(h: nat): nat { h / 0x100 % 0x100 }

  /** The fields of a header read back. */
  lemma HeaderReadsBack(op: nat, n: nat)
    requires op < 0x100 && n < 0x4000
    ensures var h := Header(op, n); HeaderType(h) == 3 && HeaderCount(h) == n && HeaderOp(h) == op
  {
    var h := Header(op, n);
    ModUnique(h, 3, op * 0x100 + n * 0x1_0000, 0x4000_0000);
    ModUnique(h, 0xC000 + n, op * 0x100, 0x1_0000);
    ModUnique(0xC000 + n, 3, n, 0x4000);
    ModUnique(h, 0xC0_0000 + n * 0x100 + op, 0, 0x100);
    ModUnique(0xC0_0000 + n * 0x100 + op, 0xC000 + n, op, 0x100);
  }

  function EncodePacket(p: Packet): (ds: seq<nat>)
    ensures |ds| == |p.body| + 1
  {
    [Header(p.op, |p.body| - 1)] + p.body
  }

  function Encode(ps: seq<Packet>): seq<nat>
  {
    if ps == [] then [] else EncodePacket(ps[0]) + Encode(ps[1..])
  }

  lemma {:induction false} EncodeMore(ps: seq<Packet>, p: Packet)
    ensures Encode(ps + [p]) == Encode(ps) + EncodePacket(p)
  {
    if ps == [] {
      assert ps + [p] == [p] && [p][1..] == [];
    } else {
      assert (ps + [p])[1..] == ps[1..] + [p];
      EncodeMore(ps[1..], p);
    }
  }

  // ---------------------------------------------------------------- reading the ring

  /** n dwords of the ring from position r on, wrapping at its end. */
  function Window(ring: seq<nat>, r: nat, n: nat): (ds: seq<nat>)
    requires |ring| == RING
    ensures |ds| == n
  {
    seq(n, i requires 0 <= i => ring[(r + i) % RING])
  }

  lemma WindowSplit(ring: seq<nat>, r: nat, m: nat, n: nat)
    requires |ring| == RING
    ensures Window(ring, r, m + n) == Window(ring, r, m) + Window(ring, (r + m) % RING, n)
  {
  }

  /** The packets the command processor finds in the next `left` dwords: each header says how many
      dwords follow it; a wrong type or a packet that does not fit stops it. */
  function Consume(ring: seq<nat>, r: nat, left: nat): (ps: (bool, seq<Packet>))
    requires |ring| == RING && r < RING
    decreases left
  {
    if left == 0 then (true, [])
    else
      var h := ring[r];
      var n := HeaderCount(h) + 2;
      if HeaderType(h) != 3 || n > left then (false, [])
      else
        var rest := Consume(ring, (r + n) % RING, left - n);
        (rest.0, [Packet(HeaderOp(h), Window(ring, (r + 1) % RING, n - 1))] + rest.1)
  }

  lemma {:induction false} ConsumeEncoded(ring: seq<nat>, r: nat, ps: seq<Packet>)
    requires |ring| == RING && r < RING && (forall i :: 0 <= i < |ps| ==> WellFormed(ps[i]))
    requires Window(ring, r, |Encode(ps)|) == Encode(ps)
    ensures Consume(ring, r, |Encode(ps)|) == (true, ps)
    decreases |ps|
  {
    hide Window, EncodePacket, HeaderType, HeaderCount, HeaderOp;
    if ps != [] {
      var p, rest := ps[0], Encode(ps[1..]);
      assert WellFormed(p);
      HeaderReadsBack(p.op, |p.body| - 1);
      PacketAt(ring, r, p, rest);
      ConsumeEncoded(ring, (r + |p.body| + 1) % RING, ps[1..]);
      assert ps == [p] + ps[1..];
    }
  }

  lemma PacketAt(ring: seq<nat>, r: nat, p: Packet, rest: seq<nat>)
    requires |ring| == RING && r < RING && WellFormed(p)
    requires Window(ring, r, |EncodePacket(p) + rest|) == EncodePacket(p) + rest
    ensures ring[r] == Header(p.op, |p.body| - 1) && Window(ring, (r + 1) % RING, |p.body|) == p.body
    ensures Window(ring, (r + |p.body| + 1) % RING, |rest|) == rest
  {
    hide Header;
    var n := |p.body| + 1;
    var ds := EncodePacket(p);
    WindowSplit(ring, r, n, |rest|);
    assert (ds + rest)[..n] == ds && (ds + rest)[n..] == rest;
    WindowSplit(ring, r, 1, n - 1);
    ModUnique(r, 0, r, RING);
    assert ds[..1] + ds[1..] == ds && ds[1..] == p.body;
    assert Window(ring, r, 1) == [ring[r]];
  }

  /** How far the write pointer is ahead of the read pointer. */
  function Available(rptr: nat, wptr: nat): nat { (wptr + RING - rptr) % RING }

  lemma AvailableIs(start: nat, n: nat)
    requires start < RING && n < RING
    ensures Available(start, (start + n) % RING) == n
  {
  }

  // ---------------------------------------------------------------- addresses and registers

  function Word(x: int): nat { x % TWO32 }

  function High(phys: nat): nat { phys / TWO32 % 0x100 }

  /** A dword address: the low word without its two low bits. */
  function Low(phys: nat): nat { phys % TWO32 / 4 * 4 }

  function RegisterIndex(reg: int, base: int): nat { Word(reg - base) / 4 }

  /** Two words hold the address of a dword below 2^40. */
  lemma AddressReadsBack(phys: nat)
    ensures phys % 4 == 0 ==> Low(phys) + 0x1_0000_0000 * High(phys) == phys % 0x100_0000_0000
    ensures Low(phys) % 4 == 0
  {
    var q, r := phys / TWO32, phys % TWO32;
    assert phys == TWO32 * q + r;
    var h := q / 0x100;
    ModUnique(phys, h, q % 0x100 * TWO32 + r, 0x100_0000_0000);
    assert phys % 4 == r % 4 by { ModShift(r, 0x4000_0000 * q, 4); }
  }

  /** The index of a dword register counts dwords from the base. */
  lemma IndexReadsBack(reg: int, base: nat)
    requires base <= reg < TWO32 && (reg - base) % 4 == 0
    ensures base + 4 * RegisterIndex(reg, base) == reg
  {
  }

  /** Bit-wise or. */
  function Or(a: nat, b: nat): nat
    decreases a + b
  {
    if a == 0 then b else if b == 0 then a
    else 2 * Or(a / 2, b / 2) + if a % 2 == 1 || b % 2 == 1 then 1 else 0
  }

  predicate Bit(x: nat, k: nat) { if k == 0 then x % 2 == 1 else Bit(x / 2, k - 1) }

  lemma {:induction false} ZeroBit(k: nat)
    ensures !Bit(0, k)
  {
    if k > 0 { ZeroBit(k - 1); }
  }

  lemma {:induction false} OrBit(a: nat, b: nat, k: nat)
    ensures Bit(Or(a, b), k) <==> Bit(a, k) || Bit(b, k)
  {
    ZeroBit(k);
    if a != 0 && b != 0 && k > 0 { OrBit(a / 2, b / 2, k - 1); }
  }

  function Pow2(k: nat): (p: nat)
    ensures p > 0
  {
    if k == 0 then 1 else 2 * Pow2(k - 1)
  }

  /** Words without a bit in common are added. */
  lemma {:induction false} OrApart(a: nat, c: nat, k: nat)
    requires a < Pow2(k)
    ensures Or(a, Pow2(k) * c) == a + Pow2(k) * c
  {
    if k > 0 && a > 0 && c > 0 {
      var b := Pow2(k - 1) * c;
      assert Pow2(k) * c == 2 * b;
      OrApart(a / 2, c, k - 1);
    }
  }

  /** Stride, format, scaling and byte order of the vertex buffer. */
  function VertexWord(stride: nat): nat
  {
    Or(stride, 0x30 * 0x1000 + 2 * 0x4_0000 + 2 * 0x2000_0000)
  }

  /** The fields of the word read back for strides that fit theirs. */
  lemma VertexReadsBack(stride: nat)
    requires stride < 0x800
    ensures var word := VertexWord(stride);
      && word % 0x800 == stride && word / 0x1000 % 0x40 == 0x30 && word / 0x4_0000 % 4 == 2
      && word / 0x2000_0000 == 2
  {
    hide VertexWord;
    VertexSum(stride);
  }

  lemma VertexSum(stride: nat)
    requires stride < 0x800
    ensures VertexWord(stride) == stride + 0x1000 * (0x30 + 2 * 0x40 + 2 * 0x2_0000)
  {
    hide Or;
    assert Pow2(4) == 0x10 && Pow2(8) == 0x10 * Pow2(4) && Pow2(12) == 0x10 * Pow2(8);
    OrApart(stride, 0x30 + 2 * 0x40 + 2 * 0x2_0000, 12);
  }

  function SetRegister(op: nat, index: nat, values: seq<nat>): Packet { Packet(op, [index] + values) }

  /** The packet sets consecutive registers from `reg`, a dword address behind the base, to the values. */
  ghost predicate Sets(p: Packet, op: nat, base: nat, reg: int, values: seq<nat>)
  {
    && p.op == op && |p.body| == |values| + 1 && p.body[1..] == values
    && (base <= reg < 0x1_0000_0000 && (reg - base) % 4 == 0 ==> base + 4 * p.body[0] == reg)
  }

  lemma SetsRegisters(op: nat, base: nat, reg: int, values: seq<nat>)
    ensures Sets(SetRegister(op, RegisterIndex(reg, base), values), op, base, reg, values)
  {
    if base <= reg < TWO32 && (reg - base) % 4 == 0 { IndexReadsBack(reg, base); }
  }

  class CommandRing {
    var ring: array<nat>
    var wptr: nat
    var userFenceSeq: nat
    var cpRunning: bool
    var userFenceReady: bool
    const userFencePhys: nat

    /** The write pointer where the current run of calls started, what has been written since, the
        packets that were meant, and the number of indirect buffers ever submitted. */
    ghost var start: nat
    ghost var written: seq<nat>
    ghost var packets: seq<Packet>
    ghost var submissions: nat

    /** The ring holds the written dwords from the start on, and the write pointer is behind them. */
    ghost predicate Filled()
      reads this, ring
    {
      && ring.Length == RING && start < RING && |written| < RING && wptr == (start + |written|) % RING
      && Window(ring[..], start, |written|) == written
    }

    /** What was written are exactly the packets that were meant. */
    ghost predicate Valid()
      reads this, ring
    {
      && Filled() && written == Encode(packets) && (forall i :: 0 <= i < |packets| ==> WellFormed(packets[i]))
      && userFenceSeq == Fence(submissions)
    }

    ghost function Room(): int
      reads this
    {
      RING - |written|
    }

    constructor (fencePhys: nat)
      ensures Valid() && packets == [] && submissions == 0 && fresh(ring)
    {
      ring := new nat[RING](i => 0);
      wptr, userFenceSeq, userFencePhys, cpRunning, userFenceReady := 0, 0, fencePhys, true, true;
      start, written, packets, submissions := 0, [], [], 0;
      new;
      assert Fence(0) == 0;
      ModUnique(0, 0, 0, RING);
      assert Window(ring[..], 0, 0) == [];
    }

    /** A new run of calls starts at the current write pointer. */
    ghost method StartHere()
      requires Valid()
      modifies this`start, this`written, this`packets
      ensures Valid() && start == wptr && packets == [] && Room() == RING
    {
      start, written, packets := wptr, [], [];
      ModUnique(wptr, 0, wptr, RING);
      assert Window(ring[..], wptr, 0) == [];
    }

    method RingWrite(value: nat)
      requires Filled() && Room() > 1
      modifies this`wptr, this`written, ring
      ensures Filled() && written == old(written) + [value]
    {
      ghost var n := |written|;
      NextSlot(start, n);
      ring[wptr] := value;
      wptr := (wptr + 1) % RING;
      written := written + [value];
      SlotsApart(old(ring[..]), ring[..], start, n, value);
    }

    static lemma NextSlot(start: nat, n: nat)
      ensures ((start + n) % RING + 1) % RING == (start + (n + 1)) % RING
    {
    }

    static lemma SlotsApart(ring: seq<nat>, ring': seq<nat>, start: nat, n: nat, value: nat)
      requires |ring| == RING && n < RING && ring' == ring[(start + n) % RING := value]
      ensures Window(ring', start, n + 1) == Window(ring, start, n) + [value]
    {
    }

    /** The dwords written since a packet was begun make up that packet. */
    ghost method Emitted(p: Packet, before: seq<nat>)
      requires Filled() && before == Encode(packets) && written == before + EncodePacket(p) && WellFormed(p)
      requires (forall i :: 0 <= i < |packets| ==> WellFormed(packets[i])) && userFenceSeq == Fence(submissions)
      modifies this`packets
      ensures Valid() && packets == old(packets) + [p]
    {
      EncodeMore(packets, p);
      packets := packets + [p];
    }

    method Pm4SetContextReg(reg: int, value: nat)
      requires Valid() && Room() > 3
      modifies this`wptr, this`written, this`packets, ring
      ensures Valid() && packets == old(packets) + [SetRegister(OP_SET_CONTEXT_REG,
                                                                RegisterIndex(reg, CONTEXT_REG_BASE), [value])]
      ensures Sets(packets[|old(packets)|], 0x69, 0x28000, reg, [value])
    {
      hide WellFormed, Encode, Window, Header, Fence, Sets, RegisterIndex;
      SetsRegisters(OP_SET_CONTEXT_REG, CONTEXT_REG_BASE, reg, [value]);
      RingWrite(Header(OP_SET_CONTEXT_REG, 1));
      RingWrite(RegisterIndex(reg, CONTEXT_REG_BASE));
      RingWrite(value);
      Emitted(SetRegister(OP_SET_CONTEXT_REG, RegisterIndex(reg, CONTEXT_REG_BASE), [value]), old(written));
    }

    /** Consecutive context registers; no registers, no packet. */
    method Pm4SetContextRegs(reg: int, values: seq<nat>)
      requires Valid() && Room() > |values| + 2
      modifies this`wptr, this`written, this`packets, ring
      ensures Valid()
      ensures packets == old(packets)
        + if values == [] then [] else [SetRegister(OP_SET_CONTEXT_REG, RegisterIndex(reg, CONTEXT_REG_BASE), values)]
      ensures values != [] ==> Sets(packets[|old(packets)|], 0x69, 0x28000, reg, values)
    {
      hide WellFormed, Encode, Window, Header, Fence, Sets, RegisterIndex;
      SetsRegisters(OP_SET_CONTEXT_REG, CONTEXT_REG_BASE, reg, values);
      if |values| == 0 {
        return;
      }
      var index := RegisterIndex(reg, CONTEXT_REG_BASE);
      RingWrite(Header(OP_SET_CONTEXT_REG, |values|));
      RingWrite(index);
      for i := 0 to |values|
        invariant Filled() && written == old(written) + [Header(OP_SET_CONTEXT_REG, |values|), index] + values[..i]
        invariant packets == old(packets)
      {
        RingWrite(values[i]);
        assert values[..i + 1] == values[..i] + [values[i]];
      }
      assert values[..|values|] == values;
      Registers(index, values);
      Emitted(SetRegister(OP_SET_CONTEXT_REG, index, values), old(written));
    }

    static lemma Registers(index: nat, values: seq<nat>)
      requires 0 < |values| < RING - 2
      ensures var p := SetRegister(OP_SET_CONTEXT_REG, index, values);
        EncodePacket(p) == [Header(OP_SET_CONTEXT_REG, |values|), index] + values && WellFormed(p)
    {
    }

    method Pm4SetConfigReg(reg: int, value: nat)
      requires Valid() && Room() > 3
      modifies this`wptr, this`written, this`packets, ring
      ensures Valid() && packets == old(packets) + [SetRegister(OP_SET_CONFIG_REG,
                                                                RegisterIndex(reg, CONFIG_REG_BASE), [value])]
      ensures Sets(packets[|old(packets)|], 0x68, 0x8000, reg, [value])
    {
      hide Encode, Window, Header, Fence, Sets, RegisterIndex;
      SetsRegisters(OP_SET_CONFIG_REG, CONFIG_REG_BASE, reg, [value]);
      RingWrite(Header(OP_SET_CONFIG_REG, 1));
      RingWrite(RegisterIndex(reg, CONFIG_REG_BASE));
      RingWrite(value);
      Emitted(SetRegister(OP_SET_CONFIG_REG, RegisterIndex(reg, CONFIG_REG_BASE), [value]), old(written));
    }

    method Pm4SurfaceSync(cpCoherCntl: nat, size: nat, baseShifted: nat)
      requires Valid() && Room() > 5
      modifies this`wptr, this`written, this`packets, ring
      ensures Valid() && packets == old(packets) + [Packet(OP_SURFACE_SYNC, [cpCoherCntl, size, baseShifted, 10])]
      ensures Room() == old(Room()) - 5
    {
      hide Encode, Window, Header, Fence;
      RingWrite(Header(OP_SURFACE_SYNC, 3));
      RingWrite(cpCoherCntl);
      RingWrite(size);
      RingWrite(baseShifted);
      RingWrite(10);
      Emitted(Packet(OP_SURFACE_SYNC, [cpCoherCntl, size, baseShifted, 10]), old(written));
    }

    method Pm4SetVTXResource(slot: nat, base: nat, sizeBytes: nat, stride: nat)
      requires Valid() && Room() > 9
      modifies this`wptr, this`written, this`packets, ring
      ensures Valid() && packets == old(packets) + [Packet(OP_SET_RESOURCE,
        [RegisterIndex(RESOURCE_BASE + slot * 0x1C, RESOURCE_BASE), Word(base), Word(sizeBytes - 1),
         VertexWord(stride), stride,
         0, 0, 0x8000_0000])]
      ensures packets[|old(packets)|].op == 0x6D
      ensures DescribesVertices(packets[|old(packets)|].body, slot, base, sizeBytes, stride)
    {
      hide Encode, Window, Header, Fence, VertexWord, RegisterIndex, Word, DescribesVertices;
      RingWrite(Header(OP_SET_RESOURCE, 7));
      RingWrite(RegisterIndex(RESOURCE_BASE + slot * 0x1C, RESOURCE_BASE));
      RingWrite(Word(base));
      RingWrite(Word(sizeBytes - 1));
      RingWrite(VertexWord(stride));
      RingWrite(stride);
      RingWrite(0);
      RingWrite(0);
      RingWrite(0x8000_0000);
      Emitted(Packet(OP_SET_RESOURCE,
        [RegisterIndex(RESOURCE_BASE + slot * 0x1C, RESOURCE_BASE), Word(base), Word(sizeBytes - 1),
         VertexWord(stride), stride,
         0, 0, 0x8000_0000]), old(written));
      ResourceReadsBack(slot, base, sizeBytes, stride);
    }

    /** The words of a vertex resource give back the slot, of seven dwords each, the buffer's address and size,
        and the stride of its floats. */
    static ghost predicate DescribesVertices(body: seq<nat>, slot: nat, base: nat, sizeBytes: nat, stride: nat)
    {
      && |body| == 8 && (0x1C * slot < 0x1_0000_0000 ==> body[0] == 7 * slot)
      && (base < 0x1_0000_0000 ==> body[1] == base) && (0 < sizeBytes <= 0x1_0000_0000 ==> body[2] + 1 == sizeBytes)
      && (stride < 0x800 ==> body[3] % 0x800 == stride && body[3] / 0x1000 % 0x40 == 0x30) && body[4] == stride
    }

    static lemma ResourceReadsBack(slot: nat, base: nat, sizeBytes: nat, stride: nat)
      ensures DescribesVertices([RegisterIndex(RESOURCE_BASE + slot * 0x1C, RESOURCE_BASE), Word(base),
                                 Word(sizeBytes - 1), VertexWord(stride), stride, 0, 0, 0x8000_0000],
                                slot, base, sizeBytes, stride)
    {
      hide VertexWord;
      if stride < 0x800 { VertexReadsBack(stride); }
    }

    method Pm4WaitEopFence(fencePhys: nat, seq0: nat)
      requires Valid() && Room() > 7
      modifies this`wptr, this`written, this`packets, ring
      ensures Valid() && packets == old(packets)
        + [Packet(OP_WAIT_REG_MEM, [0x13, Low(fencePhys), High(fencePhys), seq0, 0xFFFF_FFFF, 16])]
      ensures var body := packets[|old(packets)|].body;
        && packets[|old(packets)|].op == 0x3C && body[0] == 0x13 && body[1] % 4 == 0 && body[3] == seq0
        && (fencePhys % 4 == 0 ==> body[1] + 0x1_0000_0000 * body[2] == fencePhys % 0x100_0000_0000)
    {
      hide Encode, Window, Header, Fence, Low, High;
      AddressReadsBack(fencePhys);
      RingWrite(Header(OP_WAIT_REG_MEM, 5));
      RingWrite(0x13);
      RingWrite(Low(fencePhys));
      RingWrite(High(fencePhys));
      RingWrite(seq0);
      RingWrite(0xFFFF_FFFF);
      RingWrite(16);
      Emitted(Packet(OP_WAIT_REG_MEM, [0x13, Low(fencePhys), High(fencePhys), seq0, 0xFFFF_FFFF, 16]), old(written));
    }

    /** The three packets of a submission: run the buffer, flush, then store its fence. */
    static function Submission(ibPhys: nat, dwordCount: nat, fencePhys: nat, fence: nat): seq<Packet>
    {
      [Packet(OP_INDIRECT_BUFFER, [Low(ibPhys) + 2, High(ibPhys), dwordCount % 0x10_0000]),
       Packet(OP_SURFACE_SYNC, [COHER_ALL, 0xFFFF_FFFF, 0, 10]),
       Packet(OP_EVENT_WRITE_EOP, [EOP_EVENT, Low(fencePhys), High(fencePhys) + EOP_LOW32, fence, 0])]
    }

    /** Submits a user's buffer under the next fence, or refuses it and does nothing. */
    method SubmitIndirectBuffer(ibPhys: nat, dwordCount: nat) returns (ok: bool, fence: nat)
      requires Valid() && Room() > 15
      modifies this`wptr, this`written, this`packets, this`userFenceSeq, this`submissions, ring
      ensures Valid()
      ensures ok <==> cpRunning && userFenceReady && ibPhys != 0 && ibPhys % 4 == 0 && 0 < dwordCount <= 0xF_FFFF
      ensures !ok ==> packets == old(packets) && submissions == old(submissions) && wptr == old(wptr)
      ensures ok ==> submissions == old(submissions) + 1 && fence == Fence(submissions) != 0
      ensures ok ==> packets == old(packets) + Submission(ibPhys, dwordCount, userFencePhys, fence)
      ensures ok ==> RunsAndReports(packets[|old(packets)|..], ibPhys, dwordCount, userFencePhys, fence)
    {
      hide Encode, Window, Header, Low, High, RunsAndReports;
      ok, fence := false, 0;
      if !cpRunning || !userFenceReady || ibPhys == 0 || ibPhys % 4 != 0 || dwordCount == 0 || dwordCount > 0xF_FFFF {
        return;
      }
      userFenceSeq := (userFenceSeq + 1) % TWO32;
      if userFenceSeq == 0 {
        userFenceSeq := 1;
      }
      submissions := submissions + 1;
      fence := userFenceSeq;
      EmitIndirectBuffer(ibPhys, dwordCount);
      Pm4SurfaceSync(COHER_ALL, 0xFFFF_FFFF, 0);
      EmitEopFence(fence);
      ok := true;
      SubmissionReports(ibPhys, dwordCount, userFencePhys, fence);
      assert packets[|old(packets)|..] == Submission(ibPhys, dwordCount, userFencePhys, fence);
    }

    static lemma SubmissionReports(ibPhys: nat, dwordCount: nat, fencePhys: nat, fence: nat)
      requires ibPhys % 4 == 0 && dwordCount <= 0xF_FFFF
      ensures RunsAndReports(Submission(ibPhys, dwordCount, fencePhys, fence), ibPhys, dwordCount, fencePhys, fence)
    {
      hide Low, High;
      AddressReadsBack(ibPhys);
      AddressReadsBack(fencePhys);
    }

    /** Of three packets the first runs dwordCount dwords at the address, of which it has 40 bits, and the last
        stores the fence at the user's fence page, if that is at a dword address. */
    static ghost predicate RunsAndReports(ps: seq<Packet>, ibPhys: nat, dwordCount: nat, fencePhys: nat, fence: nat)
    {
      && |ps| == 3 && ps[0].op == 0x32 && |ps[0].body| == 3 && ps[2].op == 0x47 && |ps[2].body| == 5
      && ps[0].body[0] + 0x1_0000_0000 * ps[0].body[1] == ibPhys % 0x100_0000_0000 + 2
      && ps[0].body[2] == dwordCount && ps[1] == Packet(0x43, [0xF90_0000, 0xFFFF_FFFF, 0, 10])
      && ps[2].body[0] == 0x514 && ps[2].body[3] == fence
      && (fencePhys % 4 == 0 ==>
            ps[2].body[1] + 0x1_0000_0000 * ps[2].body[2]
            == fencePhys % 0x100_0000_0000 + 0x1_0000_0000 * 0x2000_0000)
    }

    method EmitIndirectBuffer(ibPhys: nat, dwordCount: nat)
      requires Valid() && Room() > 4
      modifies this`wptr, this`written, this`packets, ring
      ensures Valid() && packets == old(packets)
        + [Packet(OP_INDIRECT_BUFFER, [Low(ibPhys) + 2, High(ibPhys), dwordCount % 0x10_0000])]
      ensures Room() == old(Room()) - 4
    {
      hide Encode, Window, Header, Fence;
      RingWrite(Header(OP_INDIRECT_BUFFER, 2));
      RingWrite(Low(ibPhys) + 2);
      RingWrite(High(ibPhys));
      RingWrite(dwordCount % 0x10_0000);
      Emitted(Packet(OP_INDIRECT_BUFFER, [Low(ibPhys) + 2, High(ibPhys), dwordCount % 0x10_0000]), old(written));
    }

    method EmitEopFence(fence: nat)
      requires Valid() && Room() > 6
      modifies this`wptr, this`written, this`packets, ring
      ensures Valid() && packets == old(packets)
        + [Packet(OP_EVENT_WRITE_EOP, [EOP_EVENT, Low(userFencePhys), High(userFencePhys) + EOP_LOW32, fence, 0])]
    {
      hide Encode, Window, Header, Fence;
      RingWrite(Header(OP_EVENT_WRITE_EOP, 4));
      RingWrite(EOP_EVENT);
      RingWrite(Low(userFencePhys));
      RingWrite(High(userFencePhys) + EOP_LOW32);
      RingWrite(fence);
      RingWrite(0);
      Emitted(Packet(OP_EVENT_WRITE_EOP, [EOP_EVENT, Low(userFencePhys), High(userFencePhys) + EOP_LOW32, fence, 0]),
              old(written));
    }

    /** Reading the ring from the old write pointer to the new one by the headers' counts gives back
        exactly the packets emitted in between, wherever the ring wraps. */
    lemma ParsedExactly()
      requires Valid()
      ensures wptr < RING && Consume(ring[..], start, Available(start, wptr)) == (true, packets)
    {
      AvailableIs(start, |written|);
      ConsumeEncoded(ring[..], start, packets);
    }
  }
}
