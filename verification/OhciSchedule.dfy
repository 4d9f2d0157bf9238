/**
 The OHCI driver's endpoint lists and interrupt tree, updated in place.

 Endpoint cells come in pages; a cell is named by its index.  The ghost fields record which cells
 are free, which list every other cell is in, and the lists themselves; `Valid` ties the link
 fields, the controller's slot table and the recorded loads to them.
 */
module OhciSchedule {
  import opened Chains
  import opened Modular
  import opened OhciInterruptPlan
  import opened OhciTree

  const ENDPOINTS_PER_PAGE: nat := 256
  const ISO_HEAD_KEY: Key := Key(0, 0, 0)

  datatype InterruptNode = InterruptNode(headEndpoint: int, tailEndpoint: int)

  datatype EndpointType = ControlEndpoint | BulkEndpoint | IsoEndpoint | InterruptEndpoint

  function TypeOfList(l: nat): EndpointType
  {
    if l == CONTROL then ControlEndpoint else if l == BULK then BulkEndpoint
    else if l == ISO then IsoEndpoint else InterruptEndpoint
  }

  const BLANK: Endpoint := Endpoint(NIL, 0, Key(0, 0, 0), false, 0, 0, 0)

  /** Only free cells and cell e (now loose) changed, and new cells are free or e. */
  ghost predicate Taken(cells: seq<Endpoint>, place: seq<Place>, cells': seq<Endpoint>, place': seq<Place>, e: int)
    requires |place| == |cells| && |place'| == |cells'|
  {
    && |cells| <= |cells'|
    && 0 <= e < |cells'| && place'[e] == Loose
    && (e < |cells| ==> place[e] == Free)
    && (forall c :: 0 <= c < |cells| && place[c] != Free ==> cells'[c] == cells[c] && place'[c] == place[c])
    && (forall c :: 0 <= c < |cells'| && place'[c] != Free && c != e ==> c < |cells| && place[c] != Free)
  }

  /** During initialisation: every cell in use is a head or tail without load, its links agreeing. */
  ghost predicate OnlyStatics(cells: seq<Endpoint>, place: seq<Place>)
  {
    && |place| == |cells|
    && forall c :: 0 <= c < |cells| && place[c] != Free ==>
      (place[c].Head? || place[c].Tail?) && LinksAgree(cells[c]) && cells[c].load == 0 && cells[c].key == Key(0, 0, 0)
  }

  /** Cell c is in use as u, with link n. */
  ghost predicate Tagged(cells: seq<Endpoint>, place: seq<Place>, c: int, u: Place, n: int)
  {
    |place| == |cells| && 0 <= c < |cells| && place[c] == u && cells[c].nextEndpoint == n
  }

  /** The cells after pointing static cell h at cell n. */
  function Relinked(cells: seq<Endpoint>, h: int, n: int): seq<Endpoint>
    requires 0 <= h < |cells| && n >= NIL
  {
    cells[h := cells[h].(nextEndpoint := n, nextED := PhysOf(n))]
  }

  lemma RelinkStatic(cells: seq<Endpoint>, freeHead: int, free: seq<int>, place: seq<Place>, h: int, l: nat, n: int)
    requires FreeOk(cells, freeHead, free, place) && OnlyStatics(cells, place)
    requires 0 <= h < |cells| && place[h] == Head(l) && n >= NIL
    ensures FreeOk(Relinked(cells, h, n), freeHead, free, place) && OnlyStatics(Relinked(cells, h, n), place)
    ensures Tagged(Relinked(cells, h, n), place, h, Head(l), n)
    ensures forall c, u, m :: u != Head(l) && Tagged(cells, place, c, u, m) ==>
      Tagged(Relinked(cells, h, n), place, c, u, m)
  {
    FreeFrame(cells, Relinked(cells, h, n), freeHead, free, place, place);
  }

  class InterruptSchedule {
    var cells: seq<Endpoint>
    var freeHead: int
    var nodes: array<InterruptNode>
    var branchLoad: array<nat>
    var interruptTable: array<nat>
    var isoHead: int
    var isoTail: int
    var controlHead: int
    var controlTail: int
    var bulkHead: int
    var bulkTail: int
    var rootHubAddress: int

    ghost var heads: seq<int>
    ghost var tails: seq<int>
    ghost var lists: seq<seq<int>>
    ghost var free: seq<int>
    ghost var place: seq<Place>

    /** The driver's named cells are the heads and tails of the lists. */
    ghost predicate Named()
      reads this`nodes, this`heads, this`tails, this`isoHead, this`isoTail, this`controlHead, this`controlTail,
        this`bulkHead, this`bulkTail, nodes
    {
      && nodes.Length == NODES && |heads| == LISTS && |tails| == 3
      && (forall n :: 0 <= n < NODES ==> nodes[n].headEndpoint == heads[n])
      && (forall n :: 0 <= n < NODES - 1 ==> nodes[n].tailEndpoint == End(heads, tails, n))
      && nodes[NODES - 1].tailEndpoint == tails[0]
      && isoHead == heads[ISO] && controlHead == heads[CONTROL] && bulkHead == heads[BULK]
      && isoTail == tails[0] && controlTail == tails[1] && bulkTail == tails[2]
    }

    ghost predicate Shaped()
      reads this, nodes, interruptTable
    {
      && Named()
      && FreeOk(cells, freeHead, free, place)
      && UsedOk(cells, heads, tails, lists, place)
      && TableSet()
    }

    ghost function CurrentPlan(): Plan
      requires InPool(|cells|, lists)
      reads this, branchLoad
    {
      Plan(RecordLists(cells, lists), branchLoad[..])
    }

    ghost predicate Valid()
      reads this, nodes, branchLoad, interruptTable
    {
      && Shaped()
      && branchLoad != interruptTable && branchLoad.Length == SLOTS
      && PlanOk(CurrentPlan())
    }

    // -------------------------------------------------------------- free cells

    method AllocateFreeEndpoints()
      requires FreeOk(cells, freeHead, free, place)
      modifies this`cells, this`freeHead, this`free, this`place
      ensures FreeOk(cells, freeHead, free, place) && freeHead != NIL
      ensures |cells| == |old(cells)| + ENDPOINTS_PER_PAGE
      ensures forall c :: 0 <= c < |old(cells)| && old(place)[c] != Free ==>
        cells[c] == old(cells)[c] && place[c] == old(place)[c]
      ensures forall c :: 0 <= c < |cells| && place[c] != Free ==> c < |old(cells)| && old(place)[c] != Free
    {
      ghost var cells0, place0 := cells, place;
      var base := |cells|;
      cells := cells + seq(ENDPOINTS_PER_PAGE, i => BLANK);
      place := place + seq(ENDPOINTS_PER_PAGE, i => Loose);
      FreeFrame(cells0, cells, freeHead, free, place0, place);
      var i := 0;
      while i < ENDPOINTS_PER_PAGE
        invariant 0 <= i <= ENDPOINTS_PER_PAGE
        invariant |cells| == |cells0| + ENDPOINTS_PER_PAGE && base == |cells0|
        invariant FreeOk(cells, freeHead, free, place)
        invariant i > 0 ==> freeHead == base + i - 1
        invariant forall c :: 0 <= c < base ==> cells[c] == cells0[c] && place[c] == place0[c]
        invariant forall c :: base <= c < |cells| ==> place[c] == if c < base + i then Free else Loose
      {
        var e := base + i;
        PushFree(cells, freeHead, free, place, e);
        cells := cells[e := cells[e].(nextEndpoint := freeHead)];
        freeHead := e;
        free := [e] + free;
        place := place[e := Free];
        i := i + 1;
      }
    }

    method GetFreeEndpoint(isochronous: bool) returns (e: int)
      requires FreeOk(cells, freeHead, free, place)
      modifies this`cells, this`freeHead, this`free, this`place
      ensures FreeOk(cells, freeHead, free, place)
      ensures Taken(old(cells), old(place), cells, place, e)
      ensures var c := cells[e];
        c.nextEndpoint == NIL && c.isochronous == isochronous && c.interval == 0 && c.branch == 0 && c.load == 0
    {
      if freeHead == NIL {
        AllocateFreeEndpoints();
      }
      e := freeHead;
      var cell := cells[e].(nextEndpoint := NIL, isochronous := isochronous, interval := 0, branch := 0, load := 0);
      PopFree(cells, freeHead, free, place, cell);
      freeHead := cells[e].nextEndpoint;
      cells := cells[e := cell];
      free := free[1..];
      place := place[e := Loose];
    }

    method ReturnEndpoint(e: int)
      requires FreeOk(cells, freeHead, free, place) && 0 <= e < |cells| && place[e] == Loose
      modifies this`cells, this`freeHead, this`free, this`place
      ensures FreeOk(cells, freeHead, free, place)
      ensures free == [e] + old(free) && place == old(place)[e := Free]
      ensures cells == old(cells)[e := old(cells)[e].(nextEndpoint := old(freeHead))]
    {
      PushFree(cells, freeHead, free, place, e);
      cells := cells[e := cells[e].(nextEndpoint := freeHead)];
      freeHead := e;
      free := [e] + free;
      place := place[e := Free];
    }

    // -------------------------------------------------------------- initialisation

    /** A fresh static cell: skipped by the controller, linked to `next`. */
    method NewStatic(isochronous: bool, next: int, ghost use: Place) returns (e: int)
      requires FreeOk(cells, freeHead, free, place) && OnlyStatics(cells, place)
      requires next == NIL || 0 <= next < |cells|
      requires use.Head? || use.Tail?
      modifies this`cells, this`freeHead, this`free, this`place
      ensures FreeOk(cells, freeHead, free, place) && OnlyStatics(cells, place)
      ensures Tagged(cells, place, e, use, next)
      ensures forall c, u, n :: u != Free && Tagged(old(cells), old(place), c, u, n) ==> Tagged(cells, place, c, u, n)
    {
      ghost var cells0, place0 := cells, place;
      e := GetFreeEndpoint(isochronous);
      ghost var cells1, place1 := cells, place;
      cells := cells[e := cells[e].(key := Key(0, 0, 0), nextEndpoint := next, nextED := PhysOf(next))];
      place := place[e := use];
      FreeFrame(cells1, cells, freeHead, free, place1, place);
      assert Taken(cells0, place0, cells1, place1, e);
    }

    /** The empty control, bulk or isochronous list: a tail cell and a head cell in front of it. */
    method InitList(isochronous: bool, ghost l: nat) returns (head: int, tail: int)
      requires FreeOk(cells, freeHead, free, place) && OnlyStatics(cells, place) && NODES <= l < LISTS
      modifies this`cells, this`freeHead, this`free, this`place
      ensures FreeOk(cells, freeHead, free, place) && OnlyStatics(cells, place)
      ensures Tagged(cells, place, tail, Tail(l - NODES), NIL) && Tagged(cells, place, head, Head(l), tail)
      ensures forall c, u, n :: u != Free && Tagged(old(cells), old(place), c, u, n) ==> Tagged(cells, place, c, u, n)
    {
      tail := NewStatic(isochronous, NIL, Tail(l - NODES));
      head := NewStatic(isochronous, tail, Head(l));
    }

    ghost predicate ListsBuilt()
      reads this`cells, this`place, this`controlHead, this`controlTail, this`bulkHead, this`bulkTail,
        this`isoHead, this`isoTail
    {
      && Tagged(cells, place, controlTail, Tail(CONTROL - NODES), NIL)
      && Tagged(cells, place, controlHead, Head(CONTROL), controlTail)
      && Tagged(cells, place, bulkTail, Tail(BULK - NODES), NIL)
      && Tagged(cells, place, bulkHead, Head(BULK), bulkTail)
      && Tagged(cells, place, isoTail, Tail(ISO - NODES), NIL)
      && Tagged(cells, place, isoHead, Head(ISO), isoTail)
    }

    method InitLists()
      requires FreeOk(cells, freeHead, free, place) && OnlyStatics(cells, place)
      modifies this`cells, this`freeHead, this`free, this`place, this`controlHead, this`controlTail,
        this`bulkHead, this`bulkTail, this`isoHead, this`isoTail
      ensures FreeOk(cells, freeHead, free, place) && OnlyStatics(cells, place) && ListsBuilt()
    {
      hide FreeOk, OnlyStatics, Tagged;
      controlHead, controlTail := InitList(false, CONTROL);
      bulkHead, bulkTail := InitList(false, BULK);
      isoHead, isoTail := InitList(true, ISO);
    }

    /** Allocates the static node heads; the first 32 go in the controller's table. */
    method InitNodes()
      requires FreeOk(cells, freeHead, free, place) && OnlyStatics(cells, place) && ListsBuilt()
      requires nodes.Length == NODES && interruptTable.Length == SLOTS
      modifies this`cells, this`freeHead, this`free, this`place, this`heads, nodes, interruptTable
      ensures FreeOk(cells, freeHead, free, place) && OnlyStatics(cells, place) && ListsBuilt()
      ensures JoinedBelow(0) && TableSet()
    {
      hide FreeOk, OnlyStatics, ListsBuilt, AllocatedBelow;
      heads := [];
      EmptyAllocated();
      var i := 0;
      while i < NODES
        invariant 0 <= i <= NODES
        invariant FreeOk(cells, freeHead, free, place) && OnlyStatics(cells, place) && ListsBuilt()
        invariant AllocatedBelow(i)
      {
        AllocateNode(i);
        i := i + 1;
      }
      AllAllocated();
    }

    /** The heads of the nodes below i are allocated and in the controller's table. */
    ghost predicate AllocatedBelow(i: nat)
      reads this, nodes, interruptTable
    {
      && nodes.Length == NODES && interruptTable.Length == SLOTS && i <= NODES && |heads| == i
      && (forall n :: 0 <= n < i ==>
            nodes[n].headEndpoint == heads[n] && Tagged(cells, place, heads[n], Head(n), NIL))
      && (forall s :: 0 <= s < SLOTS && s < i ==> heads[s] >= NIL && interruptTable[s] == PhysOf(heads[s]))
    }

    lemma EmptyAllocated()
      requires heads == [] && nodes.Length == NODES && interruptTable.Length == SLOTS
      ensures AllocatedBelow(0)
    {
    }

    lemma AllAllocated()
      requires AllocatedBelow(NODES)
      ensures JoinedBelow(0) && TableSet()
    {
    }

    method AllocateNode(i: nat)
      requires FreeOk(cells, freeHead, free, place) && OnlyStatics(cells, place) && ListsBuilt()
      requires AllocatedBelow(i) && i < NODES
      modifies this`cells, this`freeHead, this`free, this`place, this`heads, nodes, interruptTable
      ensures FreeOk(cells, freeHead, free, place) && OnlyStatics(cells, place) && ListsBuilt()
      ensures AllocatedBelow(i + 1)
    {
      hide FreeOk, OnlyStatics;
      var e := NewStatic(false, NIL, Head(i));
      nodes[i] := InterruptNode(e, NIL);
      heads := heads + [e];
      if i < SLOTS {
        interruptTable[i] := PhysOf(e);
      }
    }

    /** Node i is on the level of q nodes that starts at node p. */
    static predicate AtLevel(i: nat, p: nat, q: nat)
    {
      && q == (if i < 32 then 32 else if i < 48 then 16 else if i < 56 then 8 else if i < 60 then 4
               else if i < 62 then 2 else 1)
      && p == 64 - 2 * q
    }

    /** The node that node i joins, and the level of node i + 1. */
    static method NextNode(i: nat, p: nat, q: nat) returns (z: nat, p': nat, q': nat)
      requires i < NODES - 1 && AtLevel(i, p, q)
      ensures z == Parent(i) && AtLevel(i + 1, p', q')
    {
      p', q' := p, q;
      if i < q / 2 + p {
        z := i + q;
      } else {
        z := i + q / 2;
      }
      if i == p + q - 1 {
        p' := p + q;
        q' := q / 2;
      }
    }

    /** The node heads are allocated, and nodes below i are joined to their parents. */
    ghost predicate JoinedBelow(i: nat)
      requires i < NODES
      reads this, nodes
    {
      JoinedIn(nodes[..], heads, cells, place, i)
    }

    static ghost predicate JoinedIn(ns: seq<InterruptNode>, heads: seq<int>, cells: seq<Endpoint>, place: seq<Place>,
                                    i: nat)
      requires i < NODES
    {
      && |ns| == NODES && |heads| == NODES
      && (forall n :: 0 <= n < NODES ==> ns[n].headEndpoint == heads[n])
      && (forall n :: 0 <= n < i ==>
            Tagged(cells, place, heads[n], Head(n), heads[Parent(n)]) && ns[n].tailEndpoint == heads[Parent(n)])
      && (forall n :: i <= n < NODES ==> Tagged(cells, place, heads[n], Head(n), NIL))
    }

    static lemma JoinedAt(ns: seq<InterruptNode>, heads: seq<int>, cells: seq<Endpoint>, place: seq<Place>, i: nat,
                          n: nat)
      requires i <= n < NODES && JoinedIn(ns, heads, cells, place, i)
      ensures |ns| == NODES && ns[n].headEndpoint == heads[n] >= 0 && heads[n] < |cells| == |place|
        && place[heads[n]] == Head(n)
    {
      assert Tagged(cells, place, heads[n], Head(n), NIL);
    }

    static lemma JoinedMore(ns: seq<InterruptNode>, heads: seq<int>, cells: seq<Endpoint>, place: seq<Place>, i: nat,
                            z: nat,
                            cells': seq<Endpoint>)
      requires i < NODES - 1 && z == Parent(i) && JoinedIn(ns, heads, cells, place, i)
      requires Tagged(cells', place, heads[i], Head(i), heads[z])
      requires forall c, u, m :: u != Head(i) && Tagged(cells, place, c, u, m) ==> Tagged(cells', place, c, u, m)
      ensures JoinedIn(ns[i := ns[i].(tailEndpoint := heads[z])], heads, cells', place, i + 1)
    {
      hide Tagged, Parent;
    }

    /** Joins the nodes into the tree that ends at the 1 ms node. */
    method LinkNodes()
      requires FreeOk(cells, freeHead, free, place) && OnlyStatics(cells, place) && ListsBuilt() && JoinedBelow(0)
      modifies this`cells, nodes
      ensures FreeOk(cells, freeHead, free, place) && OnlyStatics(cells, place) && ListsBuilt()
      ensures JoinedBelow(NODES - 1)
    {
      hide FreeOk, OnlyStatics, ListsBuilt, JoinedBelow, Parent;
      var p, q, z := 0, 32, 0;
      var i := 0;
      while i < NODES - 1
        invariant 0 <= i <= NODES - 1
        invariant FreeOk(cells, freeHead, free, place) && OnlyStatics(cells, place) && ListsBuilt()
        invariant AtLevel(i, p, q) && JoinedBelow(i)
      {
        z, p, q := NextNode(i, p, q);
        LinkNode(i, z);
        i := i + 1;
      }
    }

    method LinkNode(i: nat, z: nat)
      requires FreeOk(cells, freeHead, free, place) && OnlyStatics(cells, place) && ListsBuilt()
      requires i < NODES - 1 && z == Parent(i) && JoinedBelow(i)
      modifies this`cells, nodes
      ensures FreeOk(cells, freeHead, free, place) && OnlyStatics(cells, place) && ListsBuilt()
      ensures JoinedBelow(i + 1)
    {
      hide FreeOk, OnlyStatics, Parent, JoinedIn, Tagged;
      ghost var ns := nodes[..];
      JoinedAt(ns, heads, cells, place, i, i);
      JoinedAt(ns, heads, cells, place, i, z);
      var head, next := nodes[i].headEndpoint, nodes[z].headEndpoint;
      RelinkStatic(cells, freeHead, free, place, head, i, next);
      JoinedMore(ns, heads, cells, place, i, z, Relinked(cells, head, next));
      cells := Relinked(cells, head, next);
      nodes[i] := nodes[i].(tailEndpoint := next);
      assert nodes[..] == ns[i := ns[i].(tailEndpoint := next)];
    }

    /** The whole tree is joined, the isochronous list behind it. */
    ghost predicate Attached()
      reads this, nodes
    {
      && |heads| == NODES && nodes.Length == NODES
      && (forall n :: 0 <= n < NODES ==> nodes[n].headEndpoint == heads[n])
      && (forall n :: 0 <= n < NODES - 1 ==>
            Tagged(cells, place, heads[n], Head(n), heads[Parent(n)]) && nodes[n].tailEndpoint == heads[Parent(n)])
      && Tagged(cells, place, heads[NODES - 1], Head(NODES - 1), isoHead)
      && nodes[NODES - 1].tailEndpoint == isoTail
    }

    /** The ghost view of the finished structure: every list empty. */
    ghost method NameLists()
      requires FreeOk(cells, freeHead, free, place) && OnlyStatics(cells, place) && ListsBuilt() && Attached()
      requires TableSet()
      modifies this`heads, this`tails, this`lists
      ensures Shaped() && lists == seq(LISTS, l => [])
      ensures InPool(|cells|, lists) && RecordLists(cells, lists) == EmptyPlan().lists
    {
      hide FreeOk, OnlyStatics, Parent, Tagged, PlacesOk, AllLinked;
      ghost var nodeHeads := heads;
      heads := heads + [isoHead, controlHead, bulkHead];
      tails := [isoTail, controlTail, bulkTail];
      lists := seq(LISTS, l => []);
      forall l | 0 <= l < LISTS ensures Tagged(cells, place, heads[l], Head(l), End(heads, tails, l)) {
        if l < NODES { assert heads[l] == nodeHeads[l]; }
      }
      EmptyIsUsed(cells, heads, tails, place);
      EmptyIsPlan(cells);
    }

    ghost predicate TableSet()
      reads this`interruptTable, this`heads, interruptTable
    {
      && interruptTable.Length == SLOTS && SLOTS <= |heads|
      && forall s :: 0 <= s < SLOTS ==> heads[s] >= NIL && interruptTable[s] == PhysOf(heads[s])
    }

    /** Hangs the isochronous list behind the 1 ms node; that node's stored tail is the cell behind
        the isochronous head. */
    method AttachIso()
      requires FreeOk(cells, freeHead, free, place) && OnlyStatics(cells, place) && ListsBuilt()
      requires JoinedBelow(NODES - 1)
      modifies this`cells, nodes
      ensures FreeOk(cells, freeHead, free, place) && OnlyStatics(cells, place) && ListsBuilt()
      ensures Attached()
    {
      hide FreeOk, OnlyStatics, Parent;
      var last := nodes[NODES - 1].headEndpoint;
      assert Tagged(cells, place, last, Head(NODES - 1), NIL);
      assert Tagged(cells, place, isoHead, Head(ISO), isoTail);
      RelinkStatic(cells, freeHead, free, place, last, NODES - 1, isoHead);
      cells := Relinked(cells, last, isoHead);
      assert Tagged(cells, place, isoHead, Head(ISO), isoTail);
      nodes[NODES - 1] := nodes[NODES - 1].(tailEndpoint := cells[isoHead].nextEndpoint);
    }

    /** The schedule with every list empty. */
    constructor (rootHub: int)
      ensures Valid() && CurrentPlan() == EmptyPlan()
      ensures fresh(nodes) && fresh(branchLoad) && fresh(interruptTable)
      ensures rootHubAddress == rootHub
    {
      rootHubAddress := rootHub;
      cells, freeHead := [], NIL;
      nodes := new InterruptNode[NODES];
      branchLoad := new nat[SLOTS](_ => 0);
      interruptTable := new nat[SLOTS];
      free, place, tails, lists := [], [], [], [];
      new;
      hide Shaped, PlanOk, RecordLists, InPool, EmptyPlan;
      InitEndpoints();
      EmptyLoads();
    }

    lemma EmptyLoads()
      requires branchLoad.Length == SLOTS && forall s :: 0 <= s < SLOTS ==> branchLoad[s] == 0
      requires InPool(|cells|, lists) && RecordLists(cells, lists) == EmptyPlan().lists
      ensures CurrentPlan() == EmptyPlan() && PlanOk(CurrentPlan())
    {
    }

    method InitEndpoints()
      requires cells == [] && place == [] && free == [] && freeHead == NIL
      requires nodes.Length == NODES && interruptTable.Length == SLOTS
      modifies this`cells, this`freeHead, this`free, this`place, this`heads, this`tails, this`lists,
        this`controlHead, this`controlTail, this`bulkHead, this`bulkTail, this`isoHead, this`isoTail,
        nodes, interruptTable
      ensures Shaped() && InPool(|cells|, lists) && RecordLists(cells, lists) == EmptyPlan().lists
    {
      hide ListsBuilt, JoinedBelow, Attached, Shaped, Tagged, EmptyPlan, RecordLists;
      assert FreeOk(cells, freeHead, free, place) && OnlyStatics(cells, place);
      InitLists();
      InitNodes();
      LinkNodes();
      AttachIso();
      NameLists();
    }

    static lemma EmptyIsPlan(cells: seq<Endpoint>)
      ensures RecordLists(cells, seq(LISTS, l => [])) == EmptyPlan().lists
    {
    }

    static lemma EmptyIsUsed(cells: seq<Endpoint>, heads: seq<int>, tails: seq<int>, place: seq<Place>)
      requires OnlyStatics(cells, place) && |heads| == LISTS && |tails| == 3
      requires forall l :: 0 <= l < LISTS ==> Tagged(cells, place, heads[l], Head(l), End(heads, tails, l))
      requires forall k :: 0 <= k < 3 ==> Tagged(cells, place, tails[k], Tail(k), NIL)
      ensures UsedOk(cells, heads, tails, seq(LISTS, l => []), place)
    {
      var lists := seq(LISTS, l => []);
      forall l | 0 <= l < LISTS ensures ListLinked(NextOf(cells), heads, tails, lists, l) {
        assert Tagged(cells, place, heads[l], Head(l), End(heads, tails, l));
        assert [heads[l]] + lists[l] == [heads[l]];
        assert Chain(NextOf(cells), End(heads, tails, l), [], End(heads, tails, l));
      }
      forall l | 0 <= l < LISTS ensures 0 <= heads[l] < |cells| && place[heads[l]] == Head(l) {
        assert Tagged(cells, place, heads[l], Head(l), End(heads, tails, l));
      }
      forall k | 0 <= k < 3 ensures 0 <= tails[k] < |cells| && place[tails[k]] == Tail(k)
        && cells[tails[k]].nextEndpoint == NIL {
        assert Tagged(cells, place, tails[k], Tail(k), NIL);
      }
    }

    // -------------------------------------------------------------- bandwidth

    method BranchFits(interval: nat, branch: nat, load: nat) returns (fits: bool)
      requires branchLoad.Length == SLOTS && IsInterval(interval) && branch < interval
      ensures fits <==> Fits(branchLoad[..], interval, branch, load)
    {
      fits := true;
      var slot := branch;
      while slot < SLOTS
        invariant slot >= branch && slot % interval == branch
        invariant forall s :: 0 <= s < SLOTS && s < slot && s % interval == branch ==>
          branchLoad[s] + load <= MAX_FRAME_LOAD
      {
        if branchLoad[slot] + load > MAX_FRAME_LOAD {
          fits := false;
          assert !Fits(branchLoad[..], interval, branch, load) by {
            assert branchLoad[..][slot] + load > MAX_FRAME_LOAD;
          }
          return;
        }
        NextSlot(slot, interval);
        slot := slot + interval;
      }
    }

    static lemma NextSlot(slot: nat, interval: nat)
      requires IsInterval(interval)
      ensures (slot + interval) % interval == slot % interval
      ensures forall s :: slot < s < slot + interval ==> s % interval != slot % interval
    {
      ModShift(slot, 1, interval);
      forall s | slot < s < slot + interval ensures s % interval != slot % interval {
        ModGap(slot, s - slot, interval);
      }
    }

    method FindInterruptBranch(interval: nat, load: nat) returns (best: nat)
      requires branchLoad.Length == SLOTS && IsInterval(interval)
      ensures best == Choose(branchLoad[..], interval, load)
    {
      best := NO_BRANCH;
      var branch := 0;
      while branch < interval
        invariant 0 <= branch <= interval
        invariant best == ChooseUpTo(branchLoad[..], interval, load, branch)
      {
        var fits := BranchFits(interval, branch, load);
        if fits {
          if best == NO_BRANCH || branchLoad[branch] < branchLoad[best] {
            best := branch;
          }
        }
        branch := branch + 1;
      }
    }

    method AdjustInterruptBranchLoad(interval: nat, branch: nat, delta: int)
      requires branchLoad.Length == SLOTS && (interval == 0 || IsInterval(interval))
      modifies branchLoad
      ensures branchLoad[..] == AdjustLoad(old(branchLoad[..]), interval, branch, delta)
    {
      if interval == 0 || branch >= interval {
        return;
      }
      ghost var load0 := branchLoad[..];
      var slot := branch;
      while slot < SLOTS
        invariant slot >= branch && slot % interval == branch
        invariant forall s :: 0 <= s < SLOTS ==>
          branchLoad[s] == if s < slot && s % interval == branch then Adjusted(load0[s], delta) else load0[s]
      {
        var load := branchLoad[slot] + delta;
        if load < 0 {
          load := 0;
        }
        branchLoad[slot] := load % 0x10000;
        NextSlot(slot, interval);
        slot := slot + interval;
      }
    }

    // -------------------------------------------------------------- lists

    lemma Sizes()
      requires Shaped()
      ensures |heads| == LISTS && |tails| == 3 && |lists| == LISTS && |place| == |cells| && InPool(|cells|, lists)
      ensures forall l :: 0 <= l < LISTS ==> 0 <= heads[l] < |cells| && |RecordLists(cells, lists)[l]| == |lists[l]|
      ensures forall l :: 0 <= l < LISTS && lists[l] != [] ==> 0 <= lists[l][0] < |cells|
    {
    }

    lemma MemberRecord(l: nat, j: nat)
      requires Valid() && l < NODES && j < |lists[l]|
      ensures InPool(|cells|, lists) && RecordOk(RecordLists(cells, lists)[l][j], l)
    {
    }

    /** A free endpoint cell, the lists untouched. */
    method TakeEndpoint(isochronous: bool) returns (e: int)
      requires Shaped()
      modifies this`cells, this`freeHead, this`free, this`place
      ensures Shaped() && 0 <= e < |cells| == |place| && place[e] == Loose && cells[e].isochronous == isochronous
      ensures InPool(|old(cells)|, lists) && InPool(|cells|, lists)
      ensures cells[e].interval == 0 && cells[e].branch == 0 && cells[e].load == 0
      ensures RecordLists(cells, lists) == RecordLists(old(cells), lists)
    {
      ghost var cells0, place0 := cells, place;
      hide UsedOk, Named, TableSet, FreeOk;
      Sizes();
      e := GetFreeEndpoint(isochronous);
      UsedFrame(cells0, cells, heads, tails, lists, place0, place);
    }

    /** Links a fresh endpoint behind the head of list l. */
    method AddNewEndpoint(key: Key, head: int, isochronous: bool, ghost l: nat)
      requires Shaped() && l < LISTS && head == heads[l] && (isochronous <==> l == ISO)
      modifies this`cells, this`freeHead, this`free, this`place, this`lists
      ensures Shaped() && InPool(|cells|, lists) && |lists[l]| > 0 && cells[head].nextEndpoint == lists[l][0]
      ensures RecordLists(cells, lists)
        == var rs := RecordLists(old(cells), old(lists)); rs[l := [Record(key, 0, 0, 0)] + rs[l]]
    {
      hide FreeOk, UsedOk, Named, TableSet, RecordLists, InPool;
      Sizes();
      var e := TakeEndpoint(isochronous);
      InsertKeeps(cells, freeHead, free, heads, tails, lists, place, l, e, cells[e].(key := key));
      LinkEndpoint(head, e, key);
      place := place[e := Member(l)];
      lists := lists[l := [e] + lists[l]];
    }

    method LinkEndpoint(head: int, e: int, key: Key)
      requires 0 <= head < |cells| && 0 <= e < |cells| && e != head
      modifies this`cells
      ensures cells == Inserted(old(cells), head, e, old(cells)[e].(key := key))
    {
      cells := cells[e := cells[e].(key := key)];
      cells := cells[e := cells[e].(nextEndpoint := cells[head].nextEndpoint)];
      cells := cells[head := cells[head].(nextEndpoint := e)];
      cells := cells[e := cells[e].(nextED := cells[head].nextED)];
      cells := cells[head := cells[head].(nextED := PhysOf(e))];
    }

    /** addNewEndpoint on the control, bulk or isochronous list. */
    method CreateListEndpoint(l: nat, functionNumber: int, endpointNumber: int, direction: nat)
      requires Valid() && NODES <= l < LISTS
      modifies this
      ensures Valid() && nodes == old(nodes) && branchLoad == old(branchLoad) && interruptTable == old(interruptTable)
      ensures CurrentPlan() == InsertOther(old(CurrentPlan()), l,
                                           EndpointKey(functionNumber, endpointNumber, direction))
    {
      hide FreeOk, UsedOk, TableSet, PlanOk, RecordLists, InPool;
      Sizes();
      InsertOtherKeeps(CurrentPlan(), l, EndpointKey(functionNumber, endpointNumber, direction));
      AddNewEndpoint(EndpointKey(functionNumber, endpointNumber, direction),
                     if l == ISO then isoHead else if l == CONTROL then controlHead else bulkHead, l == ISO, l);
    }

    /** Writes the periodic fields of the endpoint just linked behind the head of node l. */
    method SetPeriodic(l: nat, head: int, interval: nat, branch: nat, load: nat)
      requires Shaped() && l < LISTS && head == heads[l] && lists[l] != [] && cells[head].nextEndpoint == lists[l][0]
      modifies this`cells
      ensures Shaped()
      ensures InPool(|cells|, lists)
      ensures RecordLists(cells, lists) == var rs := RecordLists(old(cells), lists);
        rs[l := rs[l][0 := Record(rs[l][0].key, interval, branch, load)]]
    {
      hide FreeOk, UsedOk, Named, TableSet, RecordLists, InPool;
      Sizes();
      ghost var cells0 := cells;
      var e := cells[head].nextEndpoint;
      var cell := cells[e].(interval := interval, branch := branch, load := load);
      SetRecord(cells, heads, tails, lists, place, l, cell);
      cells := cells[e := cells[e].(interval := interval)];
      cells := cells[e := cells[e].(branch := branch)];
      cells := cells[e := cells[e].(load := load)];
      assert cells == cells0[e := cell];
    }

    method UIMCreateInterruptEndpoint(q: Request) returns (status: Status)
      requires Valid()
      modifies this, branchLoad
      ensures Valid() && nodes == old(nodes) && branchLoad == old(branchLoad) && interruptTable == old(interruptTable)
      ensures rootHubAddress == old(rootHubAddress)
      ensures q.functionAddress != rootHubAddress ==>
        (CurrentPlan(), status) == CreateInterrupt(old(CurrentPlan()), q)
      ensures q.functionAddress == rootHubAddress ==> CurrentPlan() == old(CurrentPlan())
      ensures q.functionAddress == rootHubAddress ==>
        status == if q.endpointNumber == 1 && q.speed == FullSpeed && q.direction == USB_IN then Success
                  else BadArgument
    {
      hide FreeOk, UsedOk, Named, TableSet, PlanOk, RecordLists, InPool, PeriodicLoad, Choose, Fits, EndpointKey,
        InsertInterrupt;
      Sizes();
      if q.functionAddress == rootHubAddress {
        status := if q.endpointNumber != 1 || q.speed != FullSpeed || q.direction != USB_IN then BadArgument
                  else Success;
        return;
      }
      var interval := Interval(q.pollingRate);
      if interval == 0 {
        return NoBandwidth;
      }
      var load := PeriodicLoad(q.speed, q.direction, q.maxPacketSize);
      var branch := FindInterruptBranch(interval, load);
      if branch >= interval {
        return NoBandwidth;
      }
      var key := EndpointKey(q.functionAddress, q.endpointNumber, q.direction);
      ChosenKeeps(CurrentPlan(), Record(key, interval, branch, load));
      LinkInterrupt(key, interval, branch, load);
      status := Success;
    }

    method LinkInterrupt(key: Key, interval: nat, branch: nat, load: nat)
      requires Valid() && IsInterval(interval) && branch < interval
      requires PlanOk(InsertInterrupt(CurrentPlan(), Record(key, interval, branch, load)))
      modifies this`cells, this`freeHead, this`free, this`place, this`lists, branchLoad
      ensures Valid()
      ensures CurrentPlan() == InsertInterrupt(old(CurrentPlan()), Record(key, interval, branch, load))
    {
      hide FreeOk, UsedOk, TableSet, PlanOk, RecordLists, InPool, AdjustLoad;
      Sizes();
      var n := NodeIndex(interval, branch);
      var head := nodes[n].headEndpoint;
      ghost var rs: seq<seq<Record>> := RecordLists(cells, lists);
      ghost var r0, r := Record(key, 0, 0, 0), Record(key, interval, branch, load);
      AddNewEndpoint(key, head, false, n);
      SetPeriodic(n, head, interval, branch, load);
      assert ([r0] + rs[n])[0 := r] == [r] + rs[n];
      assert RecordLists(cells, lists) == rs[n := [r] + rs[n]];
      AdjustInterruptBranchLoad(interval, branch, load);
    }

    // -------------------------------------------------------------- lookup

    /** Walks the cells xs between a head and a tail pointer for the first match of the key. */
    method SearchRange(head: int, tail: int, wanted: Key, l: nat, ghost xs: seq<int>)
      returns (curr: int, prev: int, ghost k: nat)
      requires 0 <= head < |cells| && tail >= 0 && tail !in xs
      requires Chain(NextOf(cells), cells[head].nextEndpoint, xs, tail)
      ensures k <= |xs|
      ensures forall i :: 0 <= i < |xs| ==> 0 <= xs[i] < |cells|
      ensures forall i :: 0 <= i < k ==> !Matches(cells[xs[i]].key, wanted, l)
      ensures curr == NIL <==> k == |xs|
      ensures k < |xs| ==> Matches(cells[xs[k]].key, wanted, l) && curr == xs[k] && prev == ([head] + xs)[k]
    {
      ghost var next := NextOf(cells);
      ChainInPool(next, cells[head].nextEndpoint, xs, tail);
      prev, k := head, 0;
      curr := cells[prev].nextEndpoint;
      while curr != tail
        invariant k <= |xs| && curr == (if k < |xs| then xs[k] else tail) && prev == ([head] + xs)[k]
        invariant forall i :: 0 <= i < k ==> !Matches(cells[xs[i]].key, wanted, l)
        decreases |xs| - k
      {
        if Matches(cells[curr].key, wanted, l) {
          return;
        }
        ChainLink(next, cells[head].nextEndpoint, xs, tail, k);
        prev := curr;
        curr := cells[prev].nextEndpoint;
        k := k + 1;
      }
      curr := NIL;
    }

    /** Searches one whole list. */
    method SearchList(head: int, tail: int, wanted: Key, l: nat) returns (curr: int, prev: int)
      requires Shaped() && l < LISTS && head == heads[l] && tail == End(heads, tails, l)
      ensures curr == NIL <==> !HasMatch(RecordLists(cells, lists), wanted, l)
      ensures curr != NIL ==> var j := FindFrom(RecordLists(cells, lists)[l], wanted, l, 0);
        curr == lists[l][j] && prev == ([heads[l]] + lists[l])[j]
    {
      ghost var k;
      assert ListLinked(NextOf(cells), heads, tails, lists, l);
      assert ([head] + lists[l])[1..] == lists[l];
      assert tail !in lists[l] by { EndNotMember(l); }
      curr, prev, k := SearchRange(head, tail, wanted, l, lists[l]);
      FirstMatch(RecordLists(cells, lists)[l], wanted, l, k);
    }

    lemma EndNotMember(l: nat)
      requires Shaped() && l < LISTS
      ensures End(heads, tails, l) !in lists[l] && 0 <= End(heads, tails, l) < |cells|
    {
      assert l < NODES - 1 ==> place[heads[Parent(l)]] == Head(Parent(l));
    }

    /** Searches the 1 ms node.  Its stored tail is the isochronous tail, so the walk runs on over the
        isochronous head and list. */
    method SearchLastNode(wanted: Key) returns (curr: int, prev: int)
      requires Shaped() && wanted != ISO_HEAD_KEY
      requires !HasMatch(RecordLists(cells, lists), wanted, ISO)
      ensures curr == NIL <==> !HasMatch(RecordLists(cells, lists), wanted, NODES - 1)
      ensures curr != NIL ==> var j := FindFrom(RecordLists(cells, lists)[NODES - 1], wanted, NODES - 1, 0);
        curr == lists[NODES - 1][j] && prev == ([heads[NODES - 1]] + lists[NODES - 1])[j]
    {
      ghost var k;
      ghost var rs: seq<seq<Record>> := RecordLists(cells, lists);
      ghost var xs := LastNodeRange();
      curr, prev, k := SearchRange(nodes[NODES - 1].headEndpoint, nodes[NODES - 1].tailEndpoint, wanted, NODES - 1, xs);
      LastNodeMatch(wanted, xs, k);
    }

    /** A match in the range searched for the 1 ms node is a member of that node: the isochronous
        cells behind it do not match. */
    lemma LastNodeMatch(wanted: Key, xs: seq<int>, k: nat)
      requires Shaped() && wanted != ISO_HEAD_KEY
      requires !HasMatch(RecordLists(cells, lists), wanted, ISO)
      requires xs == lists[NODES - 1] + [heads[ISO]] + lists[ISO] && k <= |xs|
      requires forall i :: 0 <= i < |xs| ==> 0 <= xs[i] < |cells|
      requires forall i :: 0 <= i < k ==> !Matches(cells[xs[i]].key, wanted, NODES - 1)
      requires k < |xs| ==> Matches(cells[xs[k]].key, wanted, NODES - 1)
      ensures k == |xs| || k < |lists[NODES - 1]|
      ensures var j := FindFrom(RecordLists(cells, lists)[NODES - 1], wanted, NODES - 1, 0);
        if k < |xs| then j == k && xs[k] == lists[NODES - 1][k] else j == |lists[NODES - 1]|
    {
      var recs: seq<Record> := RecordLists(cells, lists)[NODES - 1];
      var isoRecs: seq<Record> := RecordLists(cells, lists)[ISO];
      var m := |lists[NODES - 1]|;
      assert forall i :: 0 <= i < m ==> xs[i] == lists[NODES - 1][i] && recs[i].key == cells[xs[i]].key;
      assert place[heads[ISO]] == Head(ISO);
      forall i | m <= i < |xs| ensures !Matches(cells[xs[i]].key, wanted, NODES - 1) {
        if i > m {
          assert xs[i] == lists[ISO][i - m - 1];
          assert isoRecs[i - m - 1].key == cells[xs[i]].key;
          assert !Matches(isoRecs[i - m - 1].key, wanted, ISO);
        }
      }
      FirstMatch(recs, wanted, NODES - 1, if k < |xs| then k else m);
    }

    ghost method LastNodeRange() returns (xs: seq<int>)
      requires Shaped()
      ensures xs == lists[NODES - 1] + [heads[ISO]] + lists[ISO]
      ensures Chain(NextOf(cells), cells[heads[NODES - 1]].nextEndpoint, xs, tails[0]) && tails[0] !in xs
    {
      var next := NextOf(cells);
      assert ListLinked(next, heads, tails, lists, NODES - 1) && ListLinked(next, heads, tails, lists, ISO);
      assert ([heads[NODES - 1]] + lists[NODES - 1])[1..] == lists[NODES - 1];
      ChainConcat(next, cells[heads[NODES - 1]].nextEndpoint, lists[NODES - 1], heads[ISO],
                  [heads[ISO]] + lists[ISO], tails[0]);
      xs := lists[NODES - 1] + [heads[ISO]] + lists[ISO];
      assert xs == lists[NODES - 1] + ([heads[ISO]] + lists[ISO]);
      assert place[tails[0]] == Tail(0) && place[heads[ISO]] == Head(ISO);
    }

    /** Searches the nodes of the tree in index order. */
    method SearchNodes(wanted: Key) returns (curr: int, prev: int)
      requires Shaped() && wanted != ISO_HEAD_KEY && !HasMatch(RecordLists(cells, lists), wanted, ISO)
      ensures var rs := RecordLists(cells, lists); var l := LocateNode(rs, wanted, 0);
        && (curr == NIL <==> l == NODES)
        && (curr != NIL ==> var j := FindFrom(rs[l], wanted, l, 0);
             curr == lists[l][j] && prev == ([heads[l]] + lists[l])[j])
    {
      hide FreeOk, UsedOk, TableSet, RecordLists, InPool, HasMatch, FindFrom;
      Sizes();
      curr, prev := NIL, NIL;
      var i := 0;
      while i < NODES
        invariant 0 <= i <= NODES && curr == NIL
        invariant LocateNode(RecordLists(cells, lists), wanted, 0) == LocateNode(RecordLists(cells, lists), wanted, i)
      {
        if i < NODES - 1 {
          curr, prev := SearchList(nodes[i].headEndpoint, nodes[i].tailEndpoint, wanted, i);
        } else {
          curr, prev := SearchLastNode(wanted);
        }
        if curr != NIL { return; }
        i := i + 1;
      }
    }

    /** The first endpoint with this key: control list, bulk list, isochronous list, then the nodes. */
    method GetEndpoint(wanted: Key) returns (curr: int, prev: int, kind: EndpointType)
      requires Shaped() && wanted != ISO_HEAD_KEY
      ensures var rs := RecordLists(cells, lists); var l := Locate(rs, wanted);
        && (curr == NIL <==> l == LISTS)
        && (curr != NIL ==> var j := FindFrom(rs[l], wanted, l, 0);
             curr == lists[l][j] && prev == ([heads[l]] + lists[l])[j] && kind == TypeOfList(l))
    {
      hide FreeOk, UsedOk, TableSet, RecordLists, InPool, HasMatch, LocateNode, FindFrom;
      Sizes();
      kind := ControlEndpoint;
      curr, prev := SearchList(controlHead, controlTail, wanted, CONTROL);
      if curr != NIL { return; }
      kind := BulkEndpoint;
      curr, prev := SearchList(bulkHead, bulkTail, wanted, BULK);
      if curr != NIL { return; }
      kind := IsoEndpoint;
      curr, prev := SearchList(isoHead, isoTail, wanted, ISO);
      if curr != NIL { return; }
      kind := InterruptEndpoint;
      curr, prev := SearchNodes(wanted);
    }

    // -------------------------------------------------------------- deletion

    method UIMDeleteEndpoint(functionNumber: int, endpointNumber: int, direction: nat) returns (status: Status)
      requires Valid() && EndpointKey(functionNumber, endpointNumber, direction) != ISO_HEAD_KEY
      modifies this, branchLoad
      ensures Valid() && nodes == old(nodes) && branchLoad == old(branchLoad) && interruptTable == old(interruptTable)
      ensures (CurrentPlan(), status) == Delete(old(CurrentPlan()),
                                                EndpointKey(functionNumber, endpointNumber, direction))
    {
      hide FreeOk, UsedOk, Named, TableSet, PlanOk, RecordLists, InPool, EndpointKey, DeleteAt, Locate, FindFrom;
      Sizes();
      var wanted := EndpointKey(functionNumber, endpointNumber, direction);
      var e, prev, kind := GetEndpoint(wanted);
      if e == NIL {
        return NotFound;
      }
      ghost var l := Locate(RecordLists(cells, lists), wanted);
      ghost var j := FindFrom(RecordLists(cells, lists)[l], wanted, l, 0);
      DeleteAtKeeps(CurrentPlan(), l, j);
      RemoveEndpoint(e, prev, kind, l, j);
      status := Success;
    }

    method RemoveEndpoint(e: int, prev: int, kind: EndpointType, ghost l: nat, ghost j: nat)
      requires Valid() && l < LISTS && j < |lists[l]| && kind == TypeOfList(l)
      requires e == lists[l][j] && prev == ([heads[l]] + lists[l])[j]
      requires PlanOk(DeleteAt(CurrentPlan(), l, j))
      modifies this`cells, this`freeHead, this`free, this`place, this`lists, branchLoad
      ensures Valid() && CurrentPlan() == DeleteAt(old(CurrentPlan()), l, j)
    {
      hide FreeOk, UsedOk, Named, TableSet, PlanOk, RecordLists, InPool;
      if l < NODES { MemberRecord(l, j); }
      UnlinkEndpoint(e, prev, l, j);
      if cells[e].isochronous {
        // Isochronous bandwidth is accounted for separately.
      } else if kind == InterruptEndpoint {
        AdjustInterruptBranchLoad(cells[e].interval, cells[e].branch, 0 - cells[e].load);
      }
      ReturnKeeps(cells, freeHead, free, heads, tails, lists, place, e);
      ReturnEndpoint(e);
    }

    method UnlinkEndpoint(e: int, prev: int, ghost l: nat, ghost j: nat)
      requires Shaped() && l < LISTS && j < |lists[l]|
      requires e == lists[l][j] && prev == ([heads[l]] + lists[l])[j]
      modifies this`cells, this`place, this`lists
      ensures Shaped() && 0 <= e < |cells| == |place| && place[e] == Loose && (cells[e].isochronous <==> l == ISO)
      ensures InPool(|old(cells)|, old(lists)) && InPool(|cells|, lists)
      ensures RecordOf(cells[e]) == RecordLists(old(cells), old(lists))[l][j]
      ensures RecordLists(cells, lists)
        == var rs := RecordLists(old(cells), old(lists)); rs[l := Removed(rs[l], j)]
    {
      hide FreeOk, UsedOk, Named, TableSet, RecordLists, InPool;
      Sizes();
      RemoveKeeps(cells, freeHead, free, heads, tails, lists, place, l, j);
      ghost var cells0 := cells;
      cells := cells[prev := cells[prev].(nextEndpoint := cells[e].nextEndpoint)];
      cells := cells[prev := cells[prev].(nextED := cells[e].nextED)];
      assert cells == Unlinked(cells0, prev, e);
      place := place[e := Loose];
      lists := lists[l := Removed(lists[l], j)];
    }

    // -------------------------------------------------------------- what every valid state promises

    /** From every slot of the controller's table the hardware meets each interrupt endpoint exactly
        once if the slot falls on its branch and never otherwise; the loads it meets add up to the
        slot's record, which is within the frame budget. */
    lemma SlotWalk(s: nat, fuel: nat)
      requires Valid() && s < SLOTS && fuel >= |SlotCells(heads, tails, lists, s)|
      ensures HardwareWalk(cells, interruptTable[s], fuel) == SlotCells(heads, tails, lists, s)
      ensures branchLoad[s] == CellLoad(cells, HardwareWalk(cells, interruptTable[s], fuel)) <= MAX_FRAME_LOAD
      ensures forall l, j :: 0 <= l < NODES && 0 <= j < |lists[l]| ==> MetOnBranch(lists[l][j], s, fuel)
    {
      WalkIsSlot(cells, heads, tails, lists, place, s, fuel);
      WalkLoad(cells, heads, tails, lists, place, branchLoad[..], s, fuel);
      var rs: seq<seq<Record>> := RecordLists(cells, lists);
      forall l, j | 0 <= l < NODES && 0 <= j < |lists[l]| ensures MetOnBranch(lists[l][j], s, fuel) {
        assert RecordOk(rs[l][j], l);
        MetExactlyOnItsBranch(cells, heads, tails, lists, place, l, j, s, fuel);
      }
    }

    /** The walk from slot s meets cell e once if s falls on e's branch, and never otherwise. */
    ghost predicate MetOnBranch(e: int, s: nat, fuel: nat)
      requires interruptTable.Length == SLOTS && s < SLOTS
      reads this, interruptTable
    {
      && 0 <= e < |cells| && cells[e].interval > 0
      && multiset(HardwareWalk(cells, interruptTable[s], fuel))[e]
         == if s % cells[e].interval == cells[e].branch then 1 else 0
    }

    ghost predicate MetInFrame(e: int, frame: nat, fuel: nat)
      requires interruptTable.Length == SLOTS
      reads this, interruptTable
    {
      multiset(HardwareWalk(cells, interruptTable[frame % SLOTS], fuel))[e] == 1
    }

    /** The controller meets cell e in at least one of `rate` frames in a row. */
    ghost predicate MetWithin(e: int, frame: nat, rate: nat, fuel: nat)
      requires interruptTable.Length == SLOTS
      reads this, interruptTable
    {
      exists f: nat :: frame <= f < frame + rate && MetInFrame(e, f, fuel)
    }

    /** A successful create adds an endpoint under the function and endpoint number given, and the controller
        meets it at least as often as the polling rate, a 16-bit number of frames, asks for. */
    lemma PolledAsAsked(p0: Plan, q: Request, fuel: nat) returns (e: int)
      requires Valid() && |p0.lists| == LISTS && |p0.load| == SLOTS
      requires CreateInterrupt(p0, q) == (CurrentPlan(), Success)
      requires forall s :: 0 <= s < SLOTS ==> fuel >= |SlotCells(heads, tails, lists, s)|
      ensures 0 <= e < |cells| && cells[e].key.func == q.functionAddress % 128
        && cells[e].key.ep == q.endpointNumber % 16
        && cells[e].key.dir == (if q.direction == USB_OUT then 1 else if q.direction == USB_IN then 2 else 0)
      ensures forall frame: nat :: MetWithin(e, frame, q.pollingRate % 0x10000, fuel)
    {
      hide FreeOk, UsedOk, Named, PlanOk, Choose, PeriodicLoad, Interval, SlotCells, MetWithin, HardwareWalk;
      Sizes();
      IntervalIs(q.pollingRate);
      var i, load := Interval(q.pollingRate), PeriodicLoad(q.speed, q.direction, q.maxPacketSize);
      var branch := Choose(p0.load, i, load);
      var r := Record(EndpointKey(q.functionAddress, q.endpointNumber, q.direction), i, branch, load);
      var n := NodeIndex(i, branch);
      assert CurrentPlan().lists[n] == [r] + p0.lists[n];
      assert |lists[n]| == |CurrentPlan().lists[n]|;
      e := lists[n][0];
      assert RecordOf(cells[e]) == CurrentPlan().lists[n][0];
      forall frame: nat ensures MetWithin(e, frame, q.pollingRate % 0x10000, fuel) {
        PolledFrom(n, q.pollingRate, frame, fuel);
      }
    }

    /** The first endpoint of node n's list, if its interval is that of the rate. */
    lemma PolledFrom(n: nat, pollingRate: int, frame: nat, fuel: nat)
      requires Valid() && n < NODES && |lists| == LISTS && lists[n] != []
      requires forall s :: 0 <= s < SLOTS ==> fuel >= |SlotCells(heads, tails, lists, s)|
      requires var e := lists[n][0];
        0 <= e < |cells| && cells[e].interval == Interval(pollingRate) && cells[e].branch < Interval(pollingRate)
      ensures MetWithin(lists[n][0], frame, pollingRate % 0x10000, fuel)
    {
      hide FreeOk, UsedOk, Named, PlanOk, Interval, SlotCells, HardwareWalk;
      var e := lists[n][0];
      var d := PolledInTime(pollingRate, cells[e].branch, frame);
      SlotWalk((frame + d) % SLOTS, fuel);
      assert MetOnBranch(lists[n][0], (frame + d) % SLOTS, fuel);
      assert MetInFrame(e, frame + d, fuel);
    }
  }
}
