/**
 The interrupt tree and the other endpoint lists as cells in memory: invariants over plain values,
 and what a walk by the host controller sees.

 An endpoint cell holds the driver's own link (`nextEndpoint`) and the hardware link (`nextED`), a
 physical address.  Addresses are 16-byte aligned, nonzero and one-to-one with cells.
 */
module OhciTree {
  import opened Chains
  import opened OhciInterruptPlan

  datatype Endpoint = Endpoint(nextEndpoint: int, nextED: nat, key: Key, isochronous: bool,
                               interval: nat, branch: nat, load: nat)

  /** What a cell is currently used for. */
  datatype Place = Free | Loose | Head(list: nat) | Tail(tail: nat) | Member(list: nat)

  function PhysOf(cell: int): (phys: nat)
    requires cell >= NIL
    ensures CellAt(phys) == cell && (phys == 0 <==> cell == NIL)
  {
    16 * (cell + 1)
  }

  function CellAt(phys: nat): int { phys / 16 - 1 }

  function NextOf(cells: seq<Endpoint>): (next: seq<int>)
    ensures |next| == |cells|
  {
    seq(|cells|, i requires 0 <= i < |cells| => cells[i].nextEndpoint)
  }

  function RecordOf(e: Endpoint): Record { Record(e.key, e.interval, e.branch, e.load) }

  function Records(cells: seq<Endpoint>, xs: seq<int>): (rs: seq<Record>)
    requires forall j :: 0 <= j < |xs| ==> 0 <= xs[j] < |cells|
    ensures |rs| == |xs|
  {
    seq(|xs|, j requires 0 <= j < |xs| => RecordOf(cells[xs[j]]))
  }

  predicate InPool(n: nat, lists: seq<seq<int>>)
  {
    forall l, j :: 0 <= l < |lists| && 0 <= j < |lists[l]| ==> 0 <= lists[l][j] < n
  }

  /** The plan's lists, read off the cells. */
  function RecordLists(cells: seq<Endpoint>, lists: seq<seq<int>>): (rs: seq<seq<Record>>)
    requires InPool(|cells|, lists)
    ensures |rs| == |lists|
  {
    seq(|lists|, l requires 0 <= l < |lists| => Records(cells, lists[l]))
  }

  /** The cell that follows list l: the head of the parent node, the isochronous head behind the 1 ms
      node, and a skipped tail cell behind the isochronous, control and bulk lists. */
  function End(heads: seq<int>, tails: seq<int>, l: nat): int
    requires |heads| == LISTS && |tails| == 3 && l < LISTS
  {
    if l < NODES - 1 then heads[Parent(l)] else if l == NODES - 1 then heads[ISO] else tails[l - NODES]
  }

  ghost predicate FreeOk(cells: seq<Endpoint>, freeHead: int, free: seq<int>, place: seq<Place>)
  {
    && |place| == |cells|
    && Chain(NextOf(cells), freeHead, free, NIL)
    && NoDup(free)
    && forall i :: 0 <= i < |free| ==> 0 <= free[i] < |cells| && place[free[i]] == Free
  }

  ghost predicate PlacesOk(n: nat, heads: seq<int>, tails: seq<int>, lists: seq<seq<int>>, place: seq<Place>)
  {
    && |place| == n && |heads| == LISTS && |tails| == 3 && |lists| == LISTS
    && InPool(n, lists)
    && (forall l :: 0 <= l < LISTS ==> 0 <= heads[l] < n && place[heads[l]] == Head(l))
    && (forall k :: 0 <= k < 3 ==> 0 <= tails[k] < n && place[tails[k]] == Tail(k))
    && (forall l, j :: 0 <= l < LISTS && 0 <= j < |lists[l]| ==> place[lists[l][j]] == Member(l))
    && (forall l :: 0 <= l < LISTS ==> NoDup(lists[l]))
  }

  ghost predicate ListLinked(next: seq<int>, heads: seq<int>, tails: seq<int>, lists: seq<seq<int>>, l: nat)
    requires |heads| == LISTS && |tails| == 3 && |lists| == LISTS && l < LISTS
  {
    Chain(next, heads[l], [heads[l]] + lists[l], End(heads, tails, l))
  }

  ghost predicate AllLinked(next: seq<int>, heads: seq<int>, tails: seq<int>, lists: seq<seq<int>>)
    requires |heads| == LISTS && |tails| == 3 && |lists| == LISTS
  {
    forall l :: 0 <= l < LISTS ==> ListLinked(next, heads, tails, lists, l)
  }

  /** A used cell's two links name the same cell. */
  ghost predicate LinksAgree(e: Endpoint)
  {
    e.nextEndpoint >= NIL && e.nextED == PhysOf(e.nextEndpoint)
  }

  predicate Used(p: Place) { p.Head? || p.Tail? || p.Member? }

  ghost predicate UsedOk(cells: seq<Endpoint>, heads: seq<int>, tails: seq<int>, lists: seq<seq<int>>,
                         place: seq<Place>)
  {
    && PlacesOk(|cells|, heads, tails, lists, place)
    && AllLinked(NextOf(cells), heads, tails, lists)
    && (forall k :: 0 <= k < 3 ==> cells[tails[k]].nextEndpoint == NIL)
    && (forall c :: 0 <= c < |cells| && Used(place[c]) ==> LinksAgree(cells[c]))
    && (forall c :: 0 <= c < |cells| && (place[c].Head? || place[c].Tail?) ==>
          cells[c].load == 0 && cells[c].key == Key(0, 0, 0))
    && (forall c :: 0 <= c < |cells| && place[c].Member? ==> (cells[c].isochronous <==> place[c].list == ISO))
  }

  // ---------------------------------------------------------------- updates

  /** UsedOk looks only at used cells. */
  lemma UsedFrame(cells: seq<Endpoint>, cells': seq<Endpoint>, heads: seq<int>, tails: seq<int>,
                  lists: seq<seq<int>>, place: seq<Place>, place': seq<Place>)
    requires UsedOk(cells, heads, tails, lists, place)
    requires |cells| <= |cells'| == |place'|
    requires forall c :: 0 <= c < |cells| && Used(place[c]) ==> cells'[c] == cells[c] && place'[c] == place[c]
    requires forall c :: 0 <= c < |cells'| && Used(place'[c]) ==> c < |cells| && Used(place[c])
    ensures UsedOk(cells', heads, tails, lists, place')
    ensures RecordLists(cells', lists) == RecordLists(cells, lists)
  {
    forall l | 0 <= l < LISTS
      ensures ListLinked(NextOf(cells'), heads, tails, lists, l)
      ensures Records(cells', lists[l]) == Records(cells, lists[l])
    {
      assert ListLinked(NextOf(cells), heads, tails, lists, l);
      ChainFrame(NextOf(cells), NextOf(cells'), heads[l], [heads[l]] + lists[l], End(heads, tails, l));
    }
  }

  /** Pushing a loose cell on the free list. */
  lemma PushFree(cells: seq<Endpoint>, freeHead: int, free: seq<int>, place: seq<Place>, e: int)
    requires FreeOk(cells, freeHead, free, place) && 0 <= e < |cells| && place[e] == Loose
    ensures FreeOk(cells[e := cells[e].(nextEndpoint := freeHead)], e, [e] + free, place[e := Free])
  {
    var cells' := cells[e := cells[e].(nextEndpoint := freeHead)];
    ChainFrame(NextOf(cells), NextOf(cells'), freeHead, free, NIL);
    assert ([e] + free)[1..] == free;
  }

  /** Popping the first free cell. */
  lemma PopFree(cells: seq<Endpoint>, freeHead: int, free: seq<int>, place: seq<Place>, cell: Endpoint)
    requires FreeOk(cells, freeHead, free, place) && freeHead != NIL
    ensures free != [] && freeHead == free[0]
    ensures FreeOk(cells[freeHead := cell], cells[freeHead].nextEndpoint, free[1..], place[freeHead := Loose])
  {
    var cells' := cells[freeHead := cell];
    ChainFrame(NextOf(cells), NextOf(cells'), cells[freeHead].nextEndpoint, free[1..], NIL);
  }

  /** A write to a cell that is not free leaves the free list alone. */
  lemma FreeFrame(cells: seq<Endpoint>, cells': seq<Endpoint>, freeHead: int, free: seq<int>,
                  place: seq<Place>, place': seq<Place>)
    requires FreeOk(cells, freeHead, free, place)
    requires |cells| <= |cells'| == |place'|
    requires forall c :: 0 <= c < |cells| && place[c] == Free ==> cells'[c] == cells[c] && place'[c] == Free
    ensures FreeOk(cells', freeHead, free, place')
  {
    ChainFrame(NextOf(cells), NextOf(cells'), freeHead, free, NIL);
  }

  /** The cells after linking loose cell e, holding `cell`, behind the head of a list. */
  function Inserted(cells: seq<Endpoint>, h: int, e: int, cell: Endpoint): (cells': seq<Endpoint>)
    requires 0 <= h < |cells| && 0 <= e < |cells| && e != h
  {
    cells[e := cell.(nextEndpoint := cells[h].nextEndpoint, nextED := cells[h].nextED)]
         [h := cells[h].(nextEndpoint := e, nextED := PhysOf(e))]
  }

  lemma InsertLinks(cells: seq<Endpoint>, heads: seq<int>, tails: seq<int>, lists: seq<seq<int>>,
                    place: seq<Place>, l: nat, e: int, cell: Endpoint)
    requires UsedOk(cells, heads, tails, lists, place)
    requires l < LISTS && 0 <= e < |cells| && place[e] == Loose
    ensures AllLinked(NextOf(Inserted(cells, heads[l], e, cell)), heads, tails, lists[l := [e] + lists[l]])
  {
    var h := heads[l];
    var next := NextOf(cells);
    var next' := NextOf(Inserted(cells, h, e, cell));
    var lists' := lists[l := [e] + lists[l]];
    assert next' == next[e := next[h]][h := e];
    forall m | 0 <= m < LISTS
      ensures ListLinked(next', heads, tails, lists', m)
    {
      assert ListLinked(next, heads, tails, lists, m);
      if m == l {
        ChainInsert(next, h, lists[l], End(heads, tails, l), e);
      } else {
        ChainFrame(next, next', heads[m], [heads[m]] + lists[m], End(heads, tails, m));
      }
    }
  }

  lemma InsertUsed(cells: seq<Endpoint>, heads: seq<int>, tails: seq<int>, lists: seq<seq<int>>,
                   place: seq<Place>, l: nat, e: int, cell: Endpoint)
    requires UsedOk(cells, heads, tails, lists, place)
    requires l < LISTS && 0 <= e < |cells| && place[e] == Loose
    requires cell.isochronous <==> l == ISO
    ensures UsedOk(Inserted(cells, heads[l], e, cell), heads, tails, lists[l := [e] + lists[l]],
                   place[e := Member(l)])
  {
    var lists' := lists[l := [e] + lists[l]];
    var place' := place[e := Member(l)];
    InsertLinks(cells, heads, tails, lists, place, l, e, cell);
    assert LinksAgree(cells[heads[l]]);
    forall m, j | 0 <= m < LISTS && 0 <= j < |lists'[m]|
      ensures 0 <= lists'[m][j] < |cells| && place'[lists'[m][j]] == Member(m)
    {
      if m == l && j > 0 { assert lists'[m][j] == lists[m][j - 1]; }
    }
    forall m | 0 <= m < LISTS ensures NoDup(lists'[m]) {
      if m == l { assert e !in lists[l]; }
    }
  }

  lemma InsertRecords(cells: seq<Endpoint>, heads: seq<int>, tails: seq<int>, lists: seq<seq<int>>,
                      place: seq<Place>, l: nat, e: int, cell: Endpoint)
    requires PlacesOk(|cells|, heads, tails, lists, place)
    requires l < LISTS && 0 <= e < |cells| && place[e] == Loose
    requires InPool(|cells|, lists[l := [e] + lists[l]])
    ensures RecordLists(Inserted(cells, heads[l], e, cell), lists[l := [e] + lists[l]])
      == RecordLists(cells, lists)[l := [RecordOf(cell)] + RecordLists(cells, lists)[l]]
  {
    var cells' := Inserted(cells, heads[l], e, cell);
    forall m | 0 <= m < LISTS
      ensures Records(cells', lists[m]) == Records(cells, lists[m])
    {
      forall j | 0 <= j < |lists[m]| ensures RecordOf(cells'[lists[m][j]]) == RecordOf(cells[lists[m][j]]) {
        assert place[lists[m][j]] == Member(m);
      }
    }
    assert Records(cells', [e] + lists[l]) == [RecordOf(cell)] + Records(cells, lists[l]);
  }

  /** Linking a loose cell keeps every list and the free list, and puts its record first in list l. */
  lemma InsertKeeps(cells: seq<Endpoint>, freeHead: int, free: seq<int>, heads: seq<int>, tails: seq<int>,
                    lists: seq<seq<int>>, place: seq<Place>, l: nat, e: int, cell: Endpoint)
    requires UsedOk(cells, heads, tails, lists, place) && FreeOk(cells, freeHead, free, place)
    requires l < LISTS && 0 <= e < |cells| && place[e] == Loose
    requires cell.isochronous <==> l == ISO
    ensures InPool(|cells|, lists) && InPool(|cells|, lists[l := [e] + lists[l]])
    ensures 0 <= heads[l] < |cells| && heads[l] != e
    ensures var cells' := Inserted(cells, heads[l], e, cell);
            var lists' := lists[l := [e] + lists[l]];
            var rs := RecordLists(cells, lists);
      && cells'[heads[l]].nextEndpoint == e
      && UsedOk(cells', heads, tails, lists', place[e := Member(l)])
      && FreeOk(cells', freeHead, free, place[e := Member(l)])
      && RecordLists(cells', lists') == rs[l := [RecordOf(cell)] + rs[l]]
  {
    assert place[heads[l]] == Head(l);
    InsertUsed(cells, heads, tails, lists, place, l, e, cell);
    InsertRecords(cells, heads, tails, lists, place, l, e, cell);
    FreeFrame(cells, Inserted(cells, heads[l], e, cell), freeHead, free, place, place[e := Member(l)]);
  }

  /** The cells after copying the links of cell e into its predecessor. */
  function Unlinked(cells: seq<Endpoint>, prev: int, e: int): (cells': seq<Endpoint>)
    requires 0 <= prev < |cells| && 0 <= e < |cells|
  {
    cells[prev := cells[prev].(nextEndpoint := cells[e].nextEndpoint, nextED := cells[e].nextED)]
  }

  lemma RemoveLink(next: seq<int>, h: int, xs: seq<int>, z: int, j: nat)
    requires Chain(next, h, [h] + xs, z) && NoDup([h] + xs) && j < |xs|
    requires 0 <= ([h] + xs)[j] < |next| && 0 <= xs[j] < |next|
    ensures Chain(next[([h] + xs)[j] := next[xs[j]]], h, [h] + Removed(xs, j), z)
  {
    var path := [h] + xs;
    assert path[j + 1] == xs[j];
    ChainRemove(next, h, path, z, j);
    assert path[..j + 1] + path[j + 2..] == [h] + Removed(xs, j);
  }

  lemma RemoveLinks(cells: seq<Endpoint>, heads: seq<int>, tails: seq<int>, lists: seq<seq<int>>,
                    place: seq<Place>, l: nat, j: nat)
    requires UsedOk(cells, heads, tails, lists, place) && l < LISTS && j < |lists[l]|
    ensures AllLinked(NextOf(Unlinked(cells, ([heads[l]] + lists[l])[j], lists[l][j])), heads, tails,
                      lists[l := Removed(lists[l], j)])
  {
    var path := [heads[l]] + lists[l];
    var next := NextOf(cells);
    var next' := NextOf(Unlinked(cells, path[j], lists[l][j]));
    var lists' := lists[l := Removed(lists[l], j)];
    assert next' == next[path[j] := next[path[j + 1]]];
    assert place[path[j]] == Head(l) || place[path[j]] == Member(l);
    forall m | 0 <= m < LISTS
      ensures ListLinked(next', heads, tails, lists', m)
    {
      assert ListLinked(next, heads, tails, lists, m);
      if m == l {
        assert place[heads[l]] == Head(l);
        RemoveLink(next, heads[l], lists[l], End(heads, tails, l), j);
      } else {
        ChainFrame(next, next', heads[m], [heads[m]] + lists[m], End(heads, tails, m));
      }
    }
  }

  lemma RemovePlaces(n: nat, heads: seq<int>, tails: seq<int>, lists: seq<seq<int>>, place: seq<Place>,
                     l: nat, j: nat)
    requires PlacesOk(n, heads, tails, lists, place) && l < LISTS && j < |lists[l]|
    ensures PlacesOk(n, heads, tails, lists[l := Removed(lists[l], j)], place[lists[l][j] := Loose])
  {
  }

  lemma RemoveUsed(cells: seq<Endpoint>, heads: seq<int>, tails: seq<int>, lists: seq<seq<int>>,
                   place: seq<Place>, l: nat, j: nat)
    requires UsedOk(cells, heads, tails, lists, place) && l < LISTS && j < |lists[l]|
    ensures UsedOk(Unlinked(cells, ([heads[l]] + lists[l])[j], lists[l][j]), heads, tails,
                   lists[l := Removed(lists[l], j)], place[lists[l][j] := Loose])
  {
    RemoveLinks(cells, heads, tails, lists, place, l, j);
    RemovePlaces(|cells|, heads, tails, lists, place, l, j);
    assert LinksAgree(cells[lists[l][j]]);
  }

  lemma RemoveRecords(cells: seq<Endpoint>, heads: seq<int>, tails: seq<int>, lists: seq<seq<int>>,
                      place: seq<Place>, l: nat, j: nat)
    requires PlacesOk(|cells|, heads, tails, lists, place) && l < LISTS && j < |lists[l]|
    requires InPool(|cells|, lists[l := Removed(lists[l], j)])
    ensures RecordLists(Unlinked(cells, ([heads[l]] + lists[l])[j], lists[l][j]), lists[l := Removed(lists[l], j)])
      == RecordLists(cells, lists)[l := Removed(RecordLists(cells, lists)[l], j)]
  {
    var cells' := Unlinked(cells, ([heads[l]] + lists[l])[j], lists[l][j]);
    forall c | 0 <= c < |cells| ensures RecordOf(cells'[c]) == RecordOf(cells[c]) {}
    forall m | 0 <= m < LISTS ensures Records(cells', lists[m]) == Records(cells, lists[m]) {}
    assert Records(cells', Removed(lists[l], j)) == Removed(Records(cells, lists[l]), j);
  }

  /** Unlinking the member at position j of list l keeps every list and the free list. */
  lemma RemoveKeeps(cells: seq<Endpoint>, freeHead: int, free: seq<int>, heads: seq<int>, tails: seq<int>,
                    lists: seq<seq<int>>, place: seq<Place>, l: nat, j: nat)
    requires UsedOk(cells, heads, tails, lists, place) && FreeOk(cells, freeHead, free, place)
    requires l < LISTS && j < |lists[l]|
    ensures InPool(|cells|, lists) && InPool(|cells|, lists[l := Removed(lists[l], j)])
    ensures var e := lists[l][j]; var prev := ([heads[l]] + lists[l])[j];
      0 <= prev < |cells| && 0 <= e < |cells| && prev != e
    ensures cells[lists[l][j]].isochronous <==> l == ISO
    ensures RecordOf(cells[lists[l][j]]) == RecordLists(cells, lists)[l][j]
    ensures var e := lists[l][j];
            var cells' := Unlinked(cells, ([heads[l]] + lists[l])[j], e);
            var lists' := lists[l := Removed(lists[l], j)];
            var rs := RecordLists(cells, lists);
      && UsedOk(cells', heads, tails, lists', place[e := Loose])
      && FreeOk(cells', freeHead, free, place[e := Loose])
      && RecordLists(cells', lists') == rs[l := Removed(rs[l], j)]
  {
    var e := lists[l][j];
    var prev := ([heads[l]] + lists[l])[j];
    assert place[e] == Member(l);
    assert prev != e by {
      assert place[heads[l]] == Head(l);
      assert j > 0 ==> prev == lists[l][j - 1];
    }
    assert place[prev] == Head(l) || place[prev] == Member(l);
    RemoveUsed(cells, heads, tails, lists, place, l, j);
    RemoveRecords(cells, heads, tails, lists, place, l, j);
    FreeFrame(cells, Unlinked(cells, prev, e), freeHead, free, place, place[e := Loose]);
  }

  /** Returning a loose cell to the free list leaves the lists alone. */
  lemma ReturnKeeps(cells: seq<Endpoint>, freeHead: int, free: seq<int>, heads: seq<int>, tails: seq<int>,
                    lists: seq<seq<int>>, place: seq<Place>, e: int)
    requires UsedOk(cells, heads, tails, lists, place) && FreeOk(cells, freeHead, free, place)
    requires 0 <= e < |cells| && place[e] == Loose
    ensures InPool(|cells|, lists)
    ensures var cells' := cells[e := cells[e].(nextEndpoint := freeHead)];
      && UsedOk(cells', heads, tails, lists, place[e := Free])
      && FreeOk(cells', e, [e] + free, place[e := Free])
      && RecordLists(cells', lists) == RecordLists(cells, lists)
  {
    PushFree(cells, freeHead, free, place, e);
    UsedFrame(cells, cells[e := cells[e].(nextEndpoint := freeHead)], heads, tails, lists, place, place[e := Free]);
  }

  /** Writing the periodic fields of one member. */
  lemma SetRecord(cells: seq<Endpoint>, heads: seq<int>, tails: seq<int>, lists: seq<seq<int>>,
                  place: seq<Place>, l: nat, cell: Endpoint)
    requires UsedOk(cells, heads, tails, lists, place) && l < LISTS && lists[l] != []
    requires var c := cells[lists[l][0]];
      cell == c.(interval := cell.interval, branch := cell.branch, load := cell.load)
    ensures InPool(|cells|, lists) && 0 <= lists[l][0] < |cells|
    ensures RecordLists(cells, lists)[l] != [] && RecordLists(cells, lists)[l][0] == RecordOf(cells[lists[l][0]])
    ensures UsedOk(cells[lists[l][0] := cell], heads, tails, lists, place)
    ensures forall freeHead, free {:trigger FreeOk(cells, freeHead, free, place)} ::
      FreeOk(cells, freeHead, free, place) ==> FreeOk(cells[lists[l][0] := cell], freeHead, free, place)
    ensures RecordLists(cells[lists[l][0] := cell], lists)
      == RecordLists(cells, lists)[l := RecordLists(cells, lists)[l][0 := RecordOf(cell)]]
  {
    var e := lists[l][0];
    var cells' := cells[e := cell];
    assert NextOf(cells') == NextOf(cells);
    assert place[e] == Member(l);
    forall freeHead, free | FreeOk(cells, freeHead, free, place) ensures FreeOk(cells', freeHead, free, place) {
      FreeFrame(cells, cells', freeHead, free, place, place);
    }
    forall m | 0 <= m < LISTS && m != l ensures Records(cells', lists[m]) == Records(cells, lists[m]) {
      forall j | 0 <= j < |lists[m]| ensures cells'[lists[m][j]] == cells[lists[m][j]] {
        assert place[lists[m][j]] == Member(m);
      }
    }
    assert Records(cells', lists[l]) == Records(cells, lists[l])[0 := RecordOf(cell)];
  }

  // ---------------------------------------------------------------- the controller's walk

  /** The cells the host controller meets from a physical address, following hardware links. */
  function HardwareWalk(cells: seq<Endpoint>, phys: nat, fuel: nat): seq<int>
    decreases fuel
  {
    if fuel == 0 || phys == 0 || !(0 <= CellAt(phys) < |cells|) then []
    else [CellAt(phys)] + HardwareWalk(cells, cells[CellAt(phys)].nextED, fuel - 1)
  }

  lemma {:induction false} WalkFollowsChain(cells: seq<Endpoint>, a: int, xs: seq<int>, fuel: nat)
    requires a >= NIL && Chain(NextOf(cells), a, xs, NIL) && fuel >= |xs|
    requires forall x :: x in xs && 0 <= x < |cells| ==> LinksAgree(cells[x])
    ensures HardwareWalk(cells, PhysOf(a), fuel) == xs
    decreases |xs|
  {
    hide PhysOf, CellAt;
    if xs != [] {
      assert xs[0] in xs && LinksAgree(cells[a]);
      assert forall x :: x in xs[1..] ==> x in xs;
      WalkFollowsChain(cells, cells[a].nextEndpoint, xs[1..], fuel - 1);
      assert xs == [xs[0]] + xs[1..];
    }
  }

  /** One list together with its head cell. */
  function Segment(heads: seq<int>, lists: seq<seq<int>>, l: nat): seq<int>
    requires |heads| == LISTS && |lists| == LISTS && l < LISTS
  {
    [heads[l]] + lists[l]
  }

  /** The segments of the nodes path[k..], in order. */
  function Segments(heads: seq<int>, lists: seq<seq<int>>, path: seq<nat>): seq<int>
    requires |heads| == LISTS && |lists| == LISTS && forall k :: 0 <= k < |path| ==> path[k] < LISTS
  {
    if path == [] then [] else Segment(heads, lists, path[0]) + Segments(heads, lists, path[1..])
  }

  /** Every cell met in frame slot s: six tree nodes, the isochronous list and its tail cell. */
  function SlotCells(heads: seq<int>, tails: seq<int>, lists: seq<seq<int>>, s: nat): seq<int>
    requires |heads| == LISTS && |lists| == LISTS && |tails| == 3 && s < SLOTS
  {
    Segments(heads, lists, Path(s) + [ISO]) + [tails[0]]
  }

  /** Consecutive entries of a path of lists. */
  ghost predicate Consecutive(heads: seq<int>, tails: seq<int>, path: seq<nat>)
    requires |heads| == LISTS && |tails| == 3
  {
    && (forall k :: 0 <= k < |path| ==> path[k] < LISTS)
    && (forall k :: 0 <= k < |path| - 1 ==> End(heads, tails, path[k]) == heads[path[k + 1]])
  }

  lemma {:induction false} SegmentsChain(cells: seq<Endpoint>, heads: seq<int>, tails: seq<int>,
                                         lists: seq<seq<int>>, path: seq<nat>)
    requires |heads| == LISTS && |tails| == 3 && |lists| == LISTS
    requires path != [] && Consecutive(heads, tails, path)
    requires AllLinked(NextOf(cells), heads, tails, lists)
    ensures Chain(NextOf(cells), heads[path[0]], Segments(heads, lists, path), End(heads, tails, path[|path| - 1]))
    decreases |path|
  {
    var l := path[0];
    assert ListLinked(NextOf(cells), heads, tails, lists, l);
    if |path| == 1 {
      assert Segments(heads, lists, path[1..]) == [];
      assert Segments(heads, lists, path) == Segment(heads, lists, l);
    } else {
      var rest := path[1..];
      assert forall k :: 0 <= k < |rest| ==> rest[k] == path[k + 1];
      SegmentsChain(cells, heads, tails, lists, rest);
      ChainConcat(NextOf(cells), heads[l], Segment(heads, lists, l), heads[rest[0]],
                  Segments(heads, lists, rest), End(heads, tails, path[|path| - 1]));
    }
  }

  lemma SlotPathConsecutive(heads: seq<int>, tails: seq<int>, s: nat)
    requires |heads| == LISTS && |tails| == 3 && s < SLOTS
    ensures Consecutive(heads, tails, Path(s) + [ISO])
  {
    PathFollowsParents(s);
    var path := Path(s) + [ISO];
    forall k | 0 <= k < |path| - 1
      ensures End(heads, tails, path[k]) == heads[path[k + 1]]
    {
      assert path[k] == Path(s)[k];
      if k < 5 { assert path[k + 1] == Path(s)[k + 1]; }
    }
  }

  lemma {:induction false} SegmentsUsed(cells: seq<Endpoint>, heads: seq<int>, tails: seq<int>, lists: seq<seq<int>>,
                     place: seq<Place>, path: seq<nat>, x: int)
    requires UsedOk(cells, heads, tails, lists, place)
    requires forall k :: 0 <= k < |path| ==> path[k] < LISTS
    requires x in Segments(heads, lists, path)
    ensures 0 <= x < |cells| && Used(place[x])
    decreases |path|
  {
    if x in Segment(heads, lists, path[0]) {
      if x != heads[path[0]] {
        var j :| 0 <= j < |lists[path[0]]| && lists[path[0]][j] == x;
        assert place[x] == Member(path[0]);
      }
    } else {
      SegmentsUsed(cells, heads, tails, lists, place, path[1..], x);
    }
  }

  /** From slot s of the controller's table the hardware meets exactly the cells of that slot's
      lists, in order, whatever bound at least that long is put on the walk. */
  lemma WalkIsSlot(cells: seq<Endpoint>, heads: seq<int>, tails: seq<int>, lists: seq<seq<int>>,
                   place: seq<Place>, s: nat, fuel: nat)
    requires UsedOk(cells, heads, tails, lists, place) && s < SLOTS
    requires fuel >= |SlotCells(heads, tails, lists, s)|
    ensures HardwareWalk(cells, PhysOf(heads[s]), fuel) == SlotCells(heads, tails, lists, s)
  {
    var path := Path(s) + [ISO];
    var xs := Segments(heads, lists, path);
    var next := NextOf(cells);
    SlotPathConsecutive(heads, tails, s);
    SegmentsChain(cells, heads, tails, lists, path);
    assert Chain(next, tails[0], [tails[0]], NIL);
    ChainConcat(next, heads[s], xs, tails[0], [tails[0]], NIL);
    forall x | x in xs + [tails[0]] && 0 <= x < |cells| ensures LinksAgree(cells[x]) {
      if x in xs { SegmentsUsed(cells, heads, tails, lists, place, path, x); }
    }
    WalkFollowsChain(cells, heads[s], xs + [tails[0]], fuel);
  }

  /** How often a member of list l shows up in the segments of a path that visits each list at most
      once: once if the path visits l, otherwise never. */
  lemma {:induction false} SegmentsCount(cells: seq<Endpoint>, heads: seq<int>, tails: seq<int>,
                                         lists: seq<seq<int>>, place: seq<Place>, path: seq<nat>, l: nat, j: nat)
    requires UsedOk(cells, heads, tails, lists, place) && l < LISTS && j < |lists[l]|
    requires forall k :: 0 <= k < |path| ==> path[k] < LISTS
    requires forall i, k :: 0 <= i < k < |path| ==> path[i] != path[k]
    ensures multiset(Segments(heads, lists, path))[lists[l][j]] == if l in path then 1 else 0
    decreases |path|
  {
    var e := lists[l][j];
    assert place[e] == Member(l);
    if path != [] {
      var m := path[0];
      SegmentsCount(cells, heads, tails, lists, place, path[1..], l, j);
      assert place[heads[m]] == Head(m);
      NoDupCount(lists[m], e);
      assert e in lists[m] <==> m == l by {
        if e in lists[m] {
          var i :| 0 <= i < |lists[m]| && lists[m][i] == e;
          assert place[lists[m][i]] == Member(m);
        }
      }
      assert multiset(Segment(heads, lists, m))[e] == if m == l then 1 else 0;
      assert l in path <==> m == l || l in path[1..];
      assert m == l ==> l !in path[1..];
    }
  }

  lemma SlotPathDistinct(s: nat)
    requires s < SLOTS
    ensures forall i, k :: 0 <= i < k < 7 ==> (Path(s) + [ISO])[i] != (Path(s) + [ISO])[k]
  {
  }

  /** An interrupt endpoint linked at (interval, branch) is met exactly once in every frame slot that
      falls on its branch, and never in any other. */
  lemma MetExactlyOnItsBranch(cells: seq<Endpoint>, heads: seq<int>, tails: seq<int>, lists: seq<seq<int>>,
                              place: seq<Place>, l: nat, j: nat, s: nat, fuel: nat)
    requires UsedOk(cells, heads, tails, lists, place) && l < NODES && j < |lists[l]| && s < SLOTS
    requires RecordOk(RecordOf(cells[lists[l][j]]), l)
    requires fuel >= |SlotCells(heads, tails, lists, s)|
    ensures var e := lists[l][j];
      multiset(HardwareWalk(cells, PhysOf(heads[s]), fuel))[e]
      == if s % cells[e].interval == cells[e].branch then 1 else 0
  {
    var e := lists[l][j];
    WalkIsSlot(cells, heads, tails, lists, place, s, fuel);
    SlotPathDistinct(s);
    SegmentsCount(cells, heads, tails, lists, place, Path(s) + [ISO], l, j);
    assert place[e] == Member(l) && place[tails[0]] == Tail(0);
    OnPath(s, cells[e].interval, cells[e].branch);
    assert l in Path(s) + [ISO] <==> l in Path(s);
  }

  /** The sum of recorded loads over any cells. */
  function CellLoad(cells: seq<Endpoint>, xs: seq<int>): nat
  {
    if xs == [] then 0
    else (if 0 <= xs[0] < |cells| then cells[xs[0]].load else 0) + CellLoad(cells, xs[1..])
  }

  lemma {:induction false} CellLoadConcat(cells: seq<Endpoint>, xs: seq<int>, ys: seq<int>)
    ensures CellLoad(cells, xs + ys) == CellLoad(cells, xs) + CellLoad(cells, ys)
  {
    if xs == [] {
      assert xs + ys == ys;
    } else {
      assert (xs + ys)[1..] == xs[1..] + ys;
      CellLoadConcat(cells, xs[1..], ys);
    }
  }

  lemma {:induction false} CellLoadIsListLoad(cells: seq<Endpoint>, xs: seq<int>)
    requires forall j :: 0 <= j < |xs| ==> 0 <= xs[j] < |cells|
    ensures CellLoad(cells, xs) == ListLoad(Records(cells, xs))
  {
    if xs != [] {
      assert Records(cells, xs)[1..] == Records(cells, xs[1..]);
      CellLoadIsListLoad(cells, xs[1..]);
    }
  }

  lemma SegmentLoad(cells: seq<Endpoint>, heads: seq<int>, tails: seq<int>, lists: seq<seq<int>>,
                    place: seq<Place>, l: nat)
    requires UsedOk(cells, heads, tails, lists, place) && l < LISTS
    ensures CellLoad(cells, Segment(heads, lists, l)) == ListLoad(RecordLists(cells, lists)[l])
  {
    CellLoadConcat(cells, [heads[l]], lists[l]);
    assert place[heads[l]] == Head(l);
    assert CellLoad(cells, [heads[l]]) == 0;
    CellLoadIsListLoad(cells, lists[l]);
  }

  lemma {:induction false} ZeroLoads(recs: seq<Record>)
    requires forall j :: 0 <= j < |recs| ==> recs[j].load == 0
    ensures ListLoad(recs) == 0
  {
    if recs != [] { ZeroLoads(recs[1..]); }
  }

  lemma NoSegments(cells: seq<Endpoint>, heads: seq<int>, lists: seq<seq<int>>)
    requires |heads| == LISTS && |lists| == LISTS
    ensures CellLoad(cells, Segments(heads, lists, [])) == 0
  {
  }

  lemma SegmentsLoad7(cells: seq<Endpoint>, heads: seq<int>, tails: seq<int>, lists: seq<seq<int>>,
                      place: seq<Place>, p: seq<nat>)
    requires UsedOk(cells, heads, tails, lists, place)
    requires |p| == 7 && forall k :: 0 <= k < 7 ==> p[k] < LISTS
    ensures var rs := RecordLists(cells, lists);
      CellLoad(cells, Segments(heads, lists, p)) == ListLoad(rs[p[0]]) + ListLoad(rs[p[1]]) + ListLoad(rs[p[2]])
        + ListLoad(rs[p[3]]) + ListLoad(rs[p[4]]) + ListLoad(rs[p[5]]) + ListLoad(rs[p[6]])
  {
    hide ListLoad, Segments, CellLoad, RecordLists, AllLinked;
    NoSegments(cells, heads, lists);
    SegmentsLoadStep(cells, heads, tails, lists, place, p);
    SegmentsLoadStep(cells, heads, tails, lists, place, p[1..]);
    SegmentsLoadStep(cells, heads, tails, lists, place, p[2..]);
    SegmentsLoadStep(cells, heads, tails, lists, place, p[3..]);
    SegmentsLoadStep(cells, heads, tails, lists, place, p[4..]);
    SegmentsLoadStep(cells, heads, tails, lists, place, p[5..]);
    SegmentsLoadStep(cells, heads, tails, lists, place, p[6..]);
    assert p[1..][1..] == p[2..] && p[2..][1..] == p[3..] && p[3..][1..] == p[4..]
        && p[4..][1..] == p[5..] && p[5..][1..] == p[6..] && p[6..][1..] == [];
  }

  lemma SegmentsLoadStep(cells: seq<Endpoint>, heads: seq<int>, tails: seq<int>, lists: seq<seq<int>>,
                         place: seq<Place>, p: seq<nat>)
    requires UsedOk(cells, heads, tails, lists, place)
    requires p != [] && forall k :: 0 <= k < |p| ==> p[k] < LISTS
    ensures CellLoad(cells, Segments(heads, lists, p))
      == ListLoad(RecordLists(cells, lists)[p[0]]) + CellLoad(cells, Segments(heads, lists, p[1..]))
  {
    SegmentLoad(cells, heads, tails, lists, place, p[0]);
    CellLoadConcat(cells, Segment(heads, lists, p[0]), Segments(heads, lists, p[1..]));
  }

  /** The load recorded for slot s is the sum of the loads of the cells the controller meets there,
      and within the frame budget. */
  lemma WalkLoad(cells: seq<Endpoint>, heads: seq<int>, tails: seq<int>, lists: seq<seq<int>>,
                 place: seq<Place>, load: seq<nat>, s: nat, fuel: nat)
    requires UsedOk(cells, heads, tails, lists, place) && s < SLOTS
    requires PlanOk(Plan(RecordLists(cells, lists), load))
    requires fuel >= |SlotCells(heads, tails, lists, s)|
    ensures load[s] == CellLoad(cells, HardwareWalk(cells, PhysOf(heads[s]), fuel)) <= MAX_FRAME_LOAD
  {
    var rs := RecordLists(cells, lists);
    var path := Path(s) + [ISO];
    WalkIsSlot(cells, heads, tails, lists, place, s, fuel);
    CellLoadConcat(cells, Segments(heads, lists, path), [tails[0]]);
    assert place[tails[0]] == Tail(0);
    assert CellLoad(cells, [tails[0]]) == 0;
    SegmentsLoad7(cells, heads, tails, lists, place, path);
    ZeroLoads(rs[ISO]);
    assert load[s] == SlotLoad(rs, s);
  }
}
