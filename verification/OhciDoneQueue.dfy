/**
 The OHCI done queue (OpenHCI 1.0a, section 4.4.4) at the level of links: the controller's list of
 retired transfer descriptors, newest first, becomes two oldest-first lists threaded through the
 driver's own links, one of inbound isochronous transfers and one of all others.
 */
module OhciDoneQueue {
  import opened Chains
  import opened OhciTree

  datatype Kind = General | Isochronous | LowLatency

  datatype Cell = Cell(kind: Kind, inbound: bool, nextTD: nat, nextTransfer: int)

  predicate IsInbound(c: Cell) { c.kind != General && c.inbound }

  function NextTD(cells: seq<Cell>): (next: seq<int>)
    ensures |next| == |cells|
  { seq(|cells|, i requires 0 <= i < |cells| => CellAt(cells[i].nextTD)) }

  function NextTransfer(cells: seq<Cell>): (next: seq<int>)
    ensures |next| == |cells|
  { seq(|cells|, i requires 0 <= i < |cells| => cells[i].nextTransfer) }

  function Sides(cells: seq<Cell>): (side: seq<bool>)
    ensures |side| == |cells|
  { seq(|cells|, i requires 0 <= i < |cells| => IsInbound(cells[i])) }

  /** The transfers of a newest-first list on one side, oldest first. */
  function OldestFirst(side: seq<bool>, inbound: bool, hw: seq<int>): seq<int>
  {
    if hw == [] then []
    else OldestFirst(side, inbound, hw[1..])
         + if 0 <= hw[0] < |side| && side[hw[0]] == inbound then [hw[0]] else []
  }

  lemma {:induction false} OldestFirstMore(side: seq<bool>, inbound: bool, hw: seq<int>, x: int)
    ensures OldestFirst(side, inbound, hw + [x])
      == (if 0 <= x < |side| && side[x] == inbound then [x] else []) + OldestFirst(side, inbound, hw)
  {
    if hw == [] {
      assert [x][1..] == [];
    } else {
      assert (hw + [x])[1..] == hw[1..] + [x];
      OldestFirstMore(side, inbound, hw[1..], x);
    }
  }

  lemma {:induction false} OldestFirstMembers(side: seq<bool>, inbound: bool, hw: seq<int>)
    ensures forall x :: x in OldestFirst(side, inbound, hw) ==> x in hw && 0 <= x < |side| && side[x] == inbound
    ensures forall x :: x in hw && 0 <= x < |side| && side[x] == inbound ==> x in OldestFirst(side, inbound, hw)
  {
    if hw != [] { OldestFirstMembers(side, inbound, hw[1..]); }
  }

  lemma {:induction false} OldestFirstNoDup(side: seq<bool>, inbound: bool, hw: seq<int>)
    requires NoDup(hw)
    ensures NoDup(OldestFirst(side, inbound, hw))
  {
    if hw != [] {
      OldestFirstNoDup(side, inbound, hw[1..]);
      OldestFirstMembers(side, inbound, hw[1..]);
    }
  }

  /** Isochronous and low-latency transfers that are inbound make up the one list, all others the other one: every
      general transfer is among them. */
  lemma DividedByKind(cells: seq<Cell>, hw: seq<int>, x: int)
    requires x in hw && 0 <= x < |cells|
    ensures x in OldestFirst(Sides(cells), true, hw) <==>
      cells[x].inbound && (cells[x].kind == Isochronous || cells[x].kind == LowLatency)
    ensures x in OldestFirst(Sides(cells), false, hw) <==> cells[x].kind == General || !cells[x].inbound
  {
    OldestFirstMembers(Sides(cells), true, hw);
    OldestFirstMembers(Sides(cells), false, hw);
  }

  /** Of two transfers on the same side, the one the controller retired first, which is later in its
      list, comes first. */
  lemma {:induction false} OrderReversed(side: seq<bool>, inbound: bool, hw: seq<int>, i: nat, j: nat, a: nat, b: nat)
    requires NoDup(hw) && i < j < |hw|
    requires var xs := OldestFirst(side, inbound, hw); a < |xs| && b < |xs| && xs[a] == hw[i] && xs[b] == hw[j]
    ensures b < a
  {
    var rest := OldestFirst(side, inbound, hw[1..]);
    OldestFirstMembers(side, inbound, hw[1..]);
    OldestFirstNoDup(side, inbound, hw);
    if i == 0 {
      assert hw[0] !in hw[1..];
      assert a == |rest|;
      assert b != a;
    } else {
      assert forall k :: 0 <= k < |rest| ==> rest[k] != hw[0];
      OrderReversed(side, inbound, hw[1..], i - 1, j - 1, a, b);
    }
  }

  /** Redirecting the last link of a chain. */
  lemma ChainRetail(next: seq<int>, a: int, xs: seq<int>, z: int, z': int)
    requires Chain(next, a, xs, z) && NoDup(xs) && xs != [] && 0 <= xs[|xs| - 1] < |next|
    ensures Chain(next[xs[|xs| - 1] := z'], a, xs, z')
  {
    var last := xs[|xs| - 1];
    var p := xs[..|xs| - 1];
    assert xs == p + [last];
    ChainSplit(next, a, p, [last], z);
    ChainFrame(next, next[last := z'], a, p, last);
    assert [last][1..] == [];
    ChainConcat(next[last := z'], a, p, last, [last], z');
  }

  class DoneQueue {
    var cells: array<Cell>
    var writeDoneHeadPtr: int
    var isoInHeadPtr: int
    var intWriteDoneHead: bool
    ghost var pending: seq<int>
    ghost var inbound: seq<int>
    ghost var completed: seq<int>

    ghost predicate Valid()
      reads this, cells
    {
      && Chain(NextTransfer(cells[..]), writeDoneHeadPtr, pending, NIL)
      && Chain(NextTransfer(cells[..]), isoInHeadPtr, inbound, NIL)
      && NoDup(pending + inbound)
    }

    /** Nothing but the driver's links changed. */
    ghost predicate LinksOnly(cells0: seq<Cell>)
      reads this`cells, cells
    {
      |cells0| == cells.Length
      && forall x :: 0 <= x < cells.Length ==> cells[x] == cells0[x].(nextTransfer := cells[x].nextTransfer)
    }

    /** Turns the controller's list hw, newest first, into two oldest-first lists and puts each in
        front of what is already waiting. */
    method QueueDoneHeadTransfers(doneHead: nat, ghost hw: seq<int>) returns (signal: bool)
      requires Valid() && Chain(NextTD(cells[..]), CellAt(doneHead), hw, NIL) && NoDup(hw + pending + inbound)
      modifies this`writeDoneHeadPtr, this`isoInHeadPtr, this`intWriteDoneHead, this`pending, this`inbound, cells
      ensures Valid() && LinksOnly(old(cells[..]))
      ensures pending == OldestFirst(old(Sides(cells[..])), false, hw) + old(pending)
      ensures inbound == OldestFirst(old(Sides(cells[..])), true, hw) + old(inbound)
      ensures signal == (OldestFirst(old(Sides(cells[..])), false, hw) != [])
      ensures intWriteDoneHead == (old(intWriteDoneHead) || signal)
    {
      hide OldestFirst, IsInbound, Chain, NoDup;
      signal := false;
      ghost var side, cells0, next0 := Sides(cells[..]), cells[..], NextTransfer(cells[..]);
      ghost var rest, iso := OldestFirst(side, false, hw), OldestFirst(side, true, hw);
      DividedApart(side, hw, pending, inbound);
      if doneHead == 0 {
        NoneDivided(NextTD(cells0), side, hw, pending, inbound);
        return;
      }
      var newDoneHead, doneTail, newIsoHead, isoTail := Divide(doneHead, hw);
      ghost var next := NextTransfer(cells[..]);
      ListEmpty(next, newDoneHead, doneTail, rest, pending);
      ListEmpty(next, newIsoHead, isoTail, iso, inbound);
      WaitingKept(next0, next, writeDoneHeadPtr, pending, hw);
      WaitingKept(next0, next, isoInHeadPtr, inbound, hw);
      if newDoneHead != NIL {
        Splice(newDoneHead, doneTail, writeDoneHeadPtr, rest, pending, newIsoHead, iso, isoInHeadPtr, inbound);
        writeDoneHeadPtr := newDoneHead;
        intWriteDoneHead := true;
        signal := true;
      }
      pending := rest + pending;
      if newIsoHead != NIL {
        Splice(newIsoHead, isoTail, isoInHeadPtr, iso, inbound, writeDoneHeadPtr, pending, writeDoneHeadPtr, pending);
        isoInHeadPtr := newIsoHead;
      }
      inbound := iso + inbound;
    }

    /** Walks the controller's list and pushes each transfer onto one of two new lists. */
    method Divide(doneHead: nat, ghost hw: seq<int>)
      returns (newDoneHead: int, doneTail: int, newIsoHead: int, isoTail: int)
      requires Chain(NextTD(cells[..]), CellAt(doneHead), hw, NIL) && NoDup(hw)
      modifies cells
      ensures LinksOnly(old(cells[..]))
      ensures forall x :: 0 <= x < cells.Length && x !in hw ==> cells[x] == old(cells[x])
      ensures var rest := OldestFirst(old(Sides(cells[..])), false, hw);
        ListFrom(NextTransfer(cells[..]), newDoneHead, doneTail, rest)
      ensures var iso := OldestFirst(old(Sides(cells[..])), true, hw);
        ListFrom(NextTransfer(cells[..]), newIsoHead, isoTail, iso)
    {
      hide OldestFirst, IsInbound, Chain, NoDup, ListFrom;
      ghost var cells0, side := cells[..], Sides(cells[..]);
      WholeList(NextTD(cells0), CellAt(doneHead), hw, NextTransfer(cells0));
      newDoneHead, doneTail, newIsoHead, isoTail := NIL, NIL, NIL, NIL;
      NoneFirst(side);
      var curr := CellAt(doneHead);
      ghost var i := 0;
      while curr != NIL
        invariant i <= |hw| && Chain(NextTD(cells0), curr, hw[i..], NIL)
        invariant LinksOnly(cells0) && forall x :: 0 <= x < cells.Length && x !in hw[..i] ==> cells[x] == cells0[x]
        invariant ListFrom(NextTransfer(cells[..]), newDoneHead, doneTail, OldestFirst(side, false, hw[..i]))
        invariant ListFrom(NextTransfer(cells[..]), newIsoHead, isoTail, OldestFirst(side, true, hw[..i]))
        decreases |hw| - i
      {
        ghost var next := NextTransfer(cells[..]);
        HeadOf(NextTD(cells0), curr, hw, i);
        FirstMore(side, hw, i);
        if IsInbound(cells[curr]) {
          cells[curr] := cells[curr].(nextTransfer := newIsoHead);
          assert NextTransfer(cells[..]) == next[curr := newIsoHead];
          ListPushed(next, newIsoHead, isoTail, OldestFirst(side, true, hw[..i]), curr);
          ListKept(next, next[curr := newIsoHead], newDoneHead, doneTail, OldestFirst(side, false, hw[..i]), curr);
          newIsoHead := curr;
          if isoTail == NIL {
            isoTail := curr;
          }
        } else {
          cells[curr] := cells[curr].(nextTransfer := newDoneHead);
          assert NextTransfer(cells[..]) == next[curr := newDoneHead];
          ListPushed(next, newDoneHead, doneTail, OldestFirst(side, false, hw[..i]), curr);
          ListKept(next, next[curr := newDoneHead], newIsoHead, isoTail, OldestFirst(side, true, hw[..i]), curr);
          newDoneHead := curr;
          if doneTail == NIL {
            doneTail := curr;
          }
        }
        curr := CellAt(cells[curr].nextTD);
        i := i + 1;
      }
      ChainDone(NextTD(cells0), hw, i);
    }

    /** Redirects the end of one list to the front of what waits; two other lists are not disturbed. */
    method Splice(head: int, tail: int, waiting: int, ghost xs: seq<int>, ghost ws: seq<int>,
                  ghost a: int, ghost as': seq<int>, ghost b: int, ghost bs: seq<int>)
      requires ListFrom(NextTransfer(cells[..]), head, tail, xs) && xs != [] && NoDup(xs)
      requires Chain(NextTransfer(cells[..]), waiting, ws, NIL) && Chain(NextTransfer(cells[..]), a, as', NIL)
      requires Chain(NextTransfer(cells[..]), b, bs, NIL) && forall x :: x in xs ==> x !in ws && x !in as' && x !in bs
      modifies cells
      ensures Chain(NextTransfer(cells[..]), head, xs + ws, NIL) && Chain(NextTransfer(cells[..]), a, as', NIL)
      ensures Chain(NextTransfer(cells[..]), b, bs, NIL) && LinksOnly(old(cells[..]))
      ensures forall x :: 0 <= x < cells.Length && x != tail ==> cells[x] == old(cells[x])
    {
      ghost var next := NextTransfer(cells[..]);
      ChainInPool(next, head, xs, NIL);
      assert tail in xs;
      cells[tail] := cells[tail].(nextTransfer := waiting);
      ghost var next' := NextTransfer(cells[..]);
      assert next' == next[tail := waiting];
      ChainRetail(next, head, xs, NIL, waiting);
      ChainFrame(next, next', waiting, ws, NIL);
      ChainFrame(next, next', a, as', NIL);
      ChainFrame(next, next', b, bs, NIL);
      ChainConcat(next', head, xs, waiting, ws, NIL);
    }

    /** Hands the inbound list over to the main one. */
    method HandleIsoInTimer() returns (signal: bool)
      requires Valid()
      modifies this`writeDoneHeadPtr, this`isoInHeadPtr, this`intWriteDoneHead, this`pending, this`inbound, cells
      ensures Valid() && LinksOnly(old(cells[..]))
      ensures pending == old(inbound) + old(pending) && inbound == [] && signal == (old(inbound) != [])
      ensures intWriteDoneHead == (old(intWriteDoneHead) || signal)
    {
      hide Chain, NoDup;
      NilChain(NextTransfer(cells[..]));
      signal := false;
      var head := isoInHeadPtr;
      isoInHeadPtr := NIL;
      ghost var xs := inbound;
      inbound := [];
      ApartParts(pending, xs);
      var last := LastOf(head, xs);
      ListEmpty(NextTransfer(cells[..]), head, last, xs, pending);
      if head != NIL {
        Splice(head, last, writeDoneHeadPtr, xs, pending, NIL, [], NIL, []);
        writeDoneHeadPtr := head;
        intWriteDoneHead := true;
        signal := true;
      }
      pending := xs + pending;
      assert pending + inbound == pending;
    }

    /** Walks a list to its last transfer. */
    method LastOf(head: int, ghost xs: seq<int>) returns (last: int)
      requires Chain(NextTransfer(cells[..]), head, xs, NIL)
      ensures ListFrom(NextTransfer(cells[..]), head, last, xs)
    {
      var curr := head;
      last := NIL;
      ghost var i := 0;
      while curr != NIL
        invariant i <= |xs| && Chain(NextTransfer(cells[..]), curr, xs[i..], NIL)
        invariant last == if i == 0 then NIL else xs[i - 1]
        decreases |xs| - i
      {
        HeadOf(NextTransfer(cells[..]), curr, xs, i);
        last := curr;
        curr := cells[curr].nextTransfer;
        i := i + 1;
      }
    }

    /** Takes everything waiting on the main list. */
    method TakeDone() returns (head: int)
      requires Valid()
      modifies this`writeDoneHeadPtr, this`intWriteDoneHead, this`pending
      ensures Valid() && pending == [] && Chain(NextTransfer(cells[..]), head, old(pending), NIL)
      ensures !intWriteDoneHead && writeDoneHeadPtr == NIL
    {
      ApartParts(pending, inbound);
      head := NIL;
      if intWriteDoneHead || writeDoneHeadPtr != NIL {
        intWriteDoneHead := false;
        head := writeDoneHeadPtr;
        writeDoneHeadPtr := NIL;
      }
      pending := [];
      assert pending + inbound == inbound;
    }

    /** Completes the transfers of a list in order, reading each link before its transfer is given up. */
    method CompleteTransferQueue(head: int, ghost xs: seq<int>)
      requires Chain(NextTransfer(cells[..]), head, xs, NIL)
      modifies this`completed
      ensures completed == old(completed) + xs
    {
      var curr := head;
      ghost var i := 0;
      while curr != NIL
        invariant i <= |xs| && Chain(NextTransfer(cells[..]), curr, xs[i..], NIL)
        invariant completed == old(completed) + xs[..i]
        decreases |xs| - i
      {
        HeadOf(NextTransfer(cells[..]), curr, xs, i);
        var next := cells[curr].nextTransfer;
        completed := completed + [curr];
        assert xs[..i + 1] == xs[..i] + [xs[i]];
        curr := next;
        i := i + 1;
      }
      assert xs[..i] == xs;
    }
  }

  /** A list with its first and last cell; both are NIL for the empty list. */
  ghost predicate ListFrom(next: seq<int>, head: int, tail: int, xs: seq<int>)
  {
    Chain(next, head, xs, NIL) && tail == (if xs == [] then NIL else xs[|xs| - 1])
  }

  lemma WholeList(next: seq<int>, a: int, xs: seq<int>, next': seq<int>)
    requires Chain(next, a, xs, NIL)
    ensures Chain(next, a, xs[0..], NIL) && ListFrom(next', NIL, NIL, [])
  {
  }

  lemma ChainDone(next: seq<int>, xs: seq<int>, i: nat)
    requires i <= |xs| && Chain(next, NIL, xs[i..], NIL)
    ensures xs[..i] == xs
  {
  }

  lemma NilChain(next: seq<int>)
    ensures Chain(next, NIL, [], NIL)
  {
  }

  lemma ListEmpty(next: seq<int>, head: int, tail: int, xs: seq<int>, ws: seq<int>)
    requires ListFrom(next, head, tail, xs)
    ensures head == NIL <==> xs == []
    ensures xs == [] ==> xs + ws == ws
    ensures Chain(next, head, xs, NIL)
  {
  }

  lemma HeadOf(next: seq<int>, curr: int, xs: seq<int>, i: nat)
    requires i <= |xs| && Chain(next, curr, xs[i..], NIL) && curr != NIL
    ensures i < |xs| && curr == xs[i] && 0 <= curr < |next| && Chain(next, next[curr], xs[i + 1..], NIL)
  {
  }

  lemma ListPushed(next: seq<int>, head: int, tail: int, xs: seq<int>, x: int)
    requires ListFrom(next, head, tail, xs) && x !in xs && 0 <= x < |next|
    ensures ListFrom(next[x := head], x, if tail == NIL then x else tail, [x] + xs)
  {
    ChainInPool(next, head, xs, NIL);
    ChainFrame(next, next[x := head], head, xs, NIL);
    assert ([x] + xs)[1..] == xs;
  }

  lemma ListKept(next: seq<int>, next': seq<int>, head: int, tail: int, xs: seq<int>, x: int)
    requires ListFrom(next, head, tail, xs) && x !in xs && |next'| == |next|
    requires forall y :: 0 <= y < |next| && y != x ==> next'[y] == next[y]
    ensures ListFrom(next', head, tail, xs)
  {
    ChainFrame(next, next', head, xs, NIL);
  }

  lemma NoneFirst(side: seq<bool>)
    ensures OldestFirst(side, false, []) == [] && OldestFirst(side, true, []) == []
  {
  }

  lemma FirstMore(side: seq<bool>, hw: seq<int>, i: nat)
    requires i < |hw| && NoDup(hw) && 0 <= hw[i] < |side|
    ensures hw[i] !in hw[..i]
    ensures hw[i] !in OldestFirst(side, false, hw[..i]) && hw[i] !in OldestFirst(side, true, hw[..i])
    ensures OldestFirst(side, false, hw[..i + 1])
      == if side[hw[i]] then OldestFirst(side, false, hw[..i]) else [hw[i]] + OldestFirst(side, false, hw[..i])
    ensures OldestFirst(side, true, hw[..i + 1])
      == if side[hw[i]] then [hw[i]] + OldestFirst(side, true, hw[..i]) else OldestFirst(side, true, hw[..i])
  {
    hide OldestFirst;
    assert hw[..i + 1] == hw[..i] + [hw[i]];
    OldestFirstMembers(side, false, hw[..i]);
    OldestFirstMembers(side, true, hw[..i]);
    OldestFirstMore(side, false, hw[..i], hw[i]);
    OldestFirstMore(side, true, hw[..i], hw[i]);
  }

  lemma WaitingKept(next: seq<int>, next': seq<int>, a: int, xs: seq<int>, hw: seq<int>)
    requires Chain(next, a, xs, NIL) && |next'| == |next| && forall x :: x in xs ==> x !in hw
    requires forall x :: 0 <= x < |next| && x !in hw ==> next'[x] == next[x]
    ensures Chain(next', a, xs, NIL)
  {
    ChainFrame(next, next', a, xs, NIL);
  }

  lemma ApartParts(xs: seq<int>, ys: seq<int>)
    requires NoDup(xs + ys)
    ensures NoDup(xs) && NoDup(ys) && NoDup(ys + xs) && forall x :: x in xs ==> x !in ys
  {
    var zs := xs + ys;
    assert forall i :: 0 <= i < |xs| ==> zs[i] == xs[i];
    assert forall i :: 0 <= i < |ys| ==> zs[|xs| + i] == ys[i];
  }

  lemma NoDupAppend(xs: seq<int>, ys: seq<int>)
    requires NoDup(xs) && NoDup(ys) && forall x :: x in xs ==> x !in ys
    ensures NoDup(xs + ys)
    ensures forall x :: x in xs + ys <==> x in xs || x in ys
  {
    forall i, j | 0 <= i < j < |xs + ys| ensures (xs + ys)[i] != (xs + ys)[j] {
      if i < |xs| <= j { assert (xs + ys)[i] in xs && (xs + ys)[j] in ys; }
    }
  }

  lemma DividedApart(side: seq<bool>, hw: seq<int>, pending: seq<int>, inbound: seq<int>)
    requires NoDup(hw + pending + inbound)
    ensures NoDup(hw) && NoDup(pending) && NoDup(inbound) && (forall x :: x in hw ==> x !in pending && x !in inbound)
    ensures forall x :: x in pending ==> x !in inbound
    ensures var rest, iso := OldestFirst(side, false, hw), OldestFirst(side, true, hw);
      && NoDup(rest) && NoDup(iso)
      && (forall x :: x in rest ==> x !in iso && x !in pending && x !in inbound)
      && (forall x :: x in iso ==> x !in pending && x !in inbound && x !in rest + pending)
      && NoDup((rest + pending) + (iso + inbound))
  {
    hide NoDup, OldestFirst;
    ApartParts(hw + pending, inbound);
    ApartParts(hw, pending);
    assert forall x :: x in hw ==> x in hw + pending;
    assert forall x :: x in pending ==> x in hw + pending;
    OldestFirstMembers(side, false, hw);
    OldestFirstMembers(side, true, hw);
    OldestFirstNoDup(side, false, hw);
    OldestFirstNoDup(side, true, hw);
    var rest, iso := OldestFirst(side, false, hw), OldestFirst(side, true, hw);
    NoDupAppend(rest, pending);
    NoDupAppend(iso, inbound);
    NoDupAppend(rest + pending, iso + inbound);
  }

  lemma NoneDivided(next: seq<int>, side: seq<bool>, hw: seq<int>, pending: seq<int>, inbound: seq<int>)
    requires Chain(next, NIL, hw, NIL)
    ensures OldestFirst(side, false, hw) + pending == pending && OldestFirst(side, true, hw) + inbound == inbound
    ensures OldestFirst(side, false, hw) == []
  {
  }
}
