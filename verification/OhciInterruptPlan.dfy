/**
 The bandwidth plan behind the OHCI interrupt polling tree, as a value.

 63 static nodes poll at 32, 16, 8, 4, 2 and 1 ms; each owns a list of endpoints.  Frame slot s of the
 controller's 32-entry table walks one node of every polling rate.  Three more lists (isochronous,
 control, bulk) carry no interrupt load.  This module gives the operations of the driver on that
 plan and what every sequence of them keeps; OhciSchedule proves that the pointer structure
 follows the plan.
 */
module OhciInterruptPlan {
  import opened Modular

  const SLOTS: nat := 32
  const NODES: nat := 63
  const ISO: nat := 63
  const CONTROL: nat := 64
  const BULK: nat := 65
  const LISTS: nat := 66
  const MAX_FRAME_LOAD: nat := 900
  const NO_BRANCH: nat := 0xFF

  const USB_OUT: nat := 0
  const USB_IN: nat := 1

  datatype Speed = LowSpeed | FullSpeed

  /** Function, endpoint and direction bits of the endpoint descriptor flags. */
  datatype Key = Key(func: nat, ep: nat, dir: nat)

  datatype Record = Record(key: Key, interval: nat, branch: nat, load: nat)

  datatype Plan = Plan(lists: seq<seq<Record>>, load: seq<nat>)

  datatype Request = Request(functionAddress: int, endpointNumber: int, direction: nat, speed: Speed,
                             maxPacketSize: nat, pollingRate: int)

  datatype Status = Success | NoBandwidth | NotFound | BadArgument

  function EndpointKey(functionNumber: int, endpointNumber: int, direction: nat): Key
  {
    Key(functionNumber % 128, endpointNumber % 16,
        if direction == USB_OUT then 1 else if direction == USB_IN then 2 else 0)
  }

  // ---------------------------------------------------------------- tree shape

  predicate IsInterval(interval: nat)
  {
    interval == 1 || interval == 2 || interval == 4 || interval == 8 || interval == 16 || interval == 32
  }

  /** The polling rate arrives as a signed short and is read as an unsigned one. */
  function Interval(pollingRate: int): (interval: nat)
    ensures interval == 0 || IsInterval(interval)
  {
    var rate := pollingRate % 0x10000;
    if rate < 1 then 0 else if rate < 2 then 1 else if rate < 4 then 2 else if rate < 8 then 4
    else if rate < 16 then 8 else if rate < 32 then 16 else 32
  }

  /** The interval is the largest power of two up to the rate, at most 32 frames. */
  lemma IntervalIs(pollingRate: int)
    ensures var rate, i := pollingRate % 0x10000, Interval(pollingRate);
      && (i == 0 <==> rate == 0) && (rate > 0 ==> IsInterval(i) && i <= rate)
      && (0 < rate < 64 ==> rate < 2 * i) && (rate >= 32 ==> i == 32)
  {
  }

  /** Of any `rate` frames in a row one at least falls on the branch of an endpoint polled at that rate. */
  lemma PolledInTime(pollingRate: int, branch: nat, frame: nat) returns (d: nat)
    requires branch < Interval(pollingRate)
    ensures d < pollingRate % 0x10000 && (frame + d) % SLOTS % Interval(pollingRate) == branch
  {
    var i := Interval(pollingRate);
    IntervalIs(pollingRate);
    d := (branch + i - frame % i) % i;
    BranchAhead(frame, i, branch, d);
    FrameOnBranch(frame + d, i);
  }

  lemma BranchAhead(frame: nat, i: nat, branch: nat, d: nat)
    requires IsInterval(i) && branch < i && d == (branch + i - frame % i) % i
    ensures d < i && (frame + d) % i == branch
  {
    var q, r := frame / i, frame % i;
    assert frame == q * i + r;
    if branch >= r {
      ModUnique(branch + i - r, 1, branch - r, i);
      ModUnique(frame + d, q, branch, i);
    } else {
      ModUnique(branch + i - r, 0, branch + i - r, i);
      ModUnique(frame + d, q + 1, branch, i);
    }
  }

  lemma FrameOnBranch(frame: nat, i: nat)
    requires IsInterval(i)
    ensures frame % SLOTS % i == frame % i
  {
    var q, r := frame / SLOTS, frame % SLOTS;
    assert frame == r + (q * (SLOTS / i)) * i;
    ModShift(r, q * (SLOTS / i), i);
  }

  function NodeIndex(interval: nat, branch: nat): (n: nat)
    ensures IsInterval(interval) ==> n < NODES
  {
    match interval
    case 1 => 62
    case 2 => 60 + branch % 2
    case 4 => 56 + branch % 4
    case 8 => 48 + branch % 8
    case 16 => 32 + branch % 16
    case 32 => branch % 32
    case _ => NODES
  }

  /** The node that follows node n on the way to the 1 ms node. */
  function Parent(n: nat): (p: nat)
    requires n < NODES - 1
    ensures n < p < NODES
  {
    if n < 32 then 32 + n % 16 else if n < 48 then 48 + n % 8 else if n < 56 then 56 + n % 4
    else if n < 60 then 60 + n % 2 else 62
  }

  /** The nodes walked in frame slot s, in order. */
  function Path(s: nat): (p: seq<nat>)
    requires s < SLOTS
    ensures |p| == 6 && forall k :: 0 <= k < 6 ==> p[k] < NODES
  {
    [s, 32 + s % 16, 48 + s % 8, 56 + s % 4, 60 + s % 2, 62]
  }

  lemma PathFollowsParents(s: nat)
    requires s < SLOTS
    ensures Path(s)[0] == s && Path(s)[5] == NODES - 1
    ensures forall k :: 0 <= k < 5 ==> Path(s)[k] < NODES - 1 && Path(s)[k + 1] == Parent(Path(s)[k])
  {
    ModHalf(s, 8);
    ModHalf(s, 4);
    ModHalf(s, 2);
    ModShift(s % 16, 4, 8);
    ModShift(s % 8, 12, 4);
    ModShift(s % 4, 28, 2);
    ParentOfPath(s, s % 16, s % 8, s % 4, s % 2);
  }

  lemma ParentOfPath(s: nat, a: nat, b: nat, c: nat, d: nat)
    requires s < 32 && a < 16 && b < 8 && c < 4 && d < 2 && s % 16 == a
    requires (a + 32) % 8 == b && (b + 48) % 4 == c && (c + 56) % 2 == d
    ensures Parent(s) == 32 + a && Parent(32 + a) == 48 + b && Parent(48 + b) == 56 + c
    ensures Parent(56 + c) == 60 + d && Parent(60 + d) == 62
  {
  }

  /** A node serves slot s exactly when s falls on the node's branch. */
  lemma OnPath(s: nat, interval: nat, branch: nat)
    requires s < SLOTS && IsInterval(interval) && branch < interval
    ensures NodeIndex(interval, branch) in Path(s) <==> s % interval == branch
  {
    NodeOnPath(s, s % 16, s % 8, s % 4, s % 2, interval, branch);
    assert s % 32 == s;
  }

  lemma NodeOnPath(s: nat, a: nat, b: nat, c: nat, d: nat, interval: nat, branch: nat)
    requires s < 32 && a < 16 && b < 8 && c < 4 && d < 2 && IsInterval(interval) && branch < interval
    ensures NodeIndex(interval, branch) in [s, 32 + a, 48 + b, 56 + c, 60 + d, 62]
      <==> branch == match interval case 1 => 0 case 2 => d case 4 => c case 8 => b case 16 => a case _ => s
  {
  }

  // ---------------------------------------------------------------- bus time

  function BitTime(byteCount: nat): nat { (7 * 8 * byteCount) / 6 }

  /** Worst-case bus time of one interrupt transaction in nanoseconds. */
  function LoadNS(speed: Speed, direction: nat, maxPacketSize: nat): nat
  {
    var bits := 31 + 10 * BitTime(maxPacketSize);
    match speed
    case LowSpeed =>
      if direction == USB_IN then 64060 + 2 * 333 + 1000 + (67667 * bits) / 1000
      else 64107 + 2 * 333 + 1000 + (66700 * bits) / 1000
    case FullSpeed => 9107 + 1000 + (8354 * bits) / 1000
  }

  /** The bus times of USB 2.0, section 5.11.3, with 3.1 bit times of overhead and a host delay of 1000 ns, in
      whole nanoseconds: a bit takes 83.54 ns at full speed, 676.67 ns inbound and 667 ns outbound at low
      speed, and a byte 7/6 of eight bits. */
  lemma BusTimeIs(speed: Speed, direction: nat, maxPacketSize: nat)
    ensures var ns, bits := LoadNS(speed, direction, maxPacketSize) as real, 3.1 + BitTime(maxPacketSize) as real;
      match speed
      case FullSpeed => ns <= 10107.0 + 83.54 * bits < ns + 1.0
      case LowSpeed =>
        if direction == USB_IN then ns <= 65726.0 + 676.67 * bits < ns + 1.0
        else ns <= 65773.0 + 667.0 * bits < ns + 1.0
    ensures 6 * BitTime(maxPacketSize) <= 56 * maxPacketSize < 6 * BitTime(maxPacketSize) + 6
  {
    var bits := 31 + 10 * BitTime(maxPacketSize);
    assert bits as real == 10.0 * (3.1 + BitTime(maxPacketSize) as real);
  }

  function TrueLoad(speed: Speed, direction: nat, maxPacketSize: nat): nat
  {
    (LoadNS(speed, direction, maxPacketSize) + 999) / 1000
  }

  /** What the driver records: the bus time in microseconds, cut to 16 bits. */
  function PeriodicLoad(speed: Speed, direction: nat, maxPacketSize: nat): (load: nat)
    ensures load < 0x10000
  {
    TrueLoad(speed, direction, maxPacketSize) % 0x10000
  }

  lemma DivideMonotone(a: nat, b: nat, d: nat)
    requires a <= b && d > 0
    ensures a / d <= b / d
  {
    assert a == d * (a / d) + a % d && b == d * (b / d) + b % d;
    var k := a / d - b / d;
    assert k > 0 ==> d * k >= d;
  }

  lemma BusTimeGrows(speed: Speed, direction: nat, small: nat, large: nat)
    requires small <= large
    ensures TrueLoad(speed, direction, small) <= TrueLoad(speed, direction, large)
  {
    DivideMonotone(7 * 8 * small, 7 * 8 * large, 6);
    var a, b := 31 + 10 * BitTime(small), 31 + 10 * BitTime(large);
    DivideMonotone(67667 * a, 67667 * b, 1000);
    DivideMonotone(66700 * a, 66700 * b, 1000);
    DivideMonotone(8354 * a, 8354 * b, 1000);
    DivideMonotone(LoadNS(speed, direction, small) + 999, LoadNS(speed, direction, large) + 999, 1000);
  }

  lemma BusTimeLimits()
    ensures TrueLoad(LowSpeed, USB_IN, 10366) < 0x10000 <= TrueLoad(LowSpeed, USB_IN, 10367)
    ensures forall d :: d != USB_IN ==> TrueLoad(LowSpeed, d, 10516) < 0x10000 <= TrueLoad(LowSpeed, d, 10517)
    ensures forall d :: TrueLoad(FullSpeed, d, 0xFFFF) < 0x10000
  {
  }

  /** The recorded load is the bus time for every full-speed endpoint, and for a low-speed one
      exactly while its packets are small enough for the time to fit in 16 bits. */
  lemma PeriodicLoadExact(speed: Speed, direction: nat, maxPacketSize: nat)
    requires maxPacketSize < 0x10000
    ensures PeriodicLoad(speed, direction, maxPacketSize) == TrueLoad(speed, direction, maxPacketSize)
      <==> speed == FullSpeed || maxPacketSize <= if direction == USB_IN then 10366 else 10516
  {
    hide TrueLoad;
    BusTimeLimits();
    var limit := if speed == FullSpeed then 0xFFFF else if direction == USB_IN then 10366 else 10516;
    if maxPacketSize <= limit {
      BusTimeGrows(speed, direction, maxPacketSize, limit);
    } else {
      BusTimeGrows(speed, direction, limit + 1, maxPacketSize);
    }
  }

  // ---------------------------------------------------------------- admission

  ghost predicate Fits(load: seq<nat>, interval: nat, branch: nat, extra: nat)
    requires |load| == SLOTS && interval > 0
  {
    forall s :: 0 <= s < SLOTS && s % interval == branch ==> load[s] + extra <= MAX_FRAME_LOAD
  }

  ghost predicate Overloaded(load: seq<nat>, interval: nat, branch: nat, extra: nat)
    requires |load| == SLOTS && interval > 0
  {
    exists s :: 0 <= s < SLOTS && s % interval == branch && load[s] + extra > MAX_FRAME_LOAD
  }

  /** The choice findInterruptBranch makes among the first n branches. */
  ghost function ChooseUpTo(load: seq<nat>, interval: nat, extra: nat, n: nat): (best: nat)
    requires |load| == SLOTS && IsInterval(interval) && n <= interval
    ensures best == NO_BRANCH || best < n
  {
    if n == 0 then NO_BRANCH
    else
      var best := ChooseUpTo(load, interval, extra, n - 1);
      if Fits(load, interval, n - 1, extra) && (best == NO_BRANCH || load[n - 1] < load[best]) then n - 1
      else best
  }

  ghost function Choose(load: seq<nat>, interval: nat, extra: nat): (best: nat)
    requires |load| == SLOTS && IsInterval(interval)
    ensures best == NO_BRANCH || best < interval
  {
    ChooseUpTo(load, interval, extra, interval)
  }

  /** No branch is chosen exactly when every branch has a slot that would pass the frame budget;
      a chosen branch fits and its first slot is the least loaded of all that fit, the lowest
      branch winning a tie. */
  lemma {:induction false} ChooseIsBest(load: seq<nat>, interval: nat, extra: nat, n: nat)
    requires |load| == SLOTS && IsInterval(interval) && n <= interval
    ensures var best := ChooseUpTo(load, interval, extra, n);
      && (best == NO_BRANCH <==> forall b :: 0 <= b < n ==> !Fits(load, interval, b, extra))
      && (best != NO_BRANCH ==>
        && best < n && Fits(load, interval, best, extra)
        && forall b :: 0 <= b < n && Fits(load, interval, b, extra) ==>
          load[best] < load[b] || (load[best] == load[b] && best <= b))
  {
    if n > 0 {
      ChooseIsBest(load, interval, extra, n - 1);
    }
  }

  // ---------------------------------------------------------------- load accounting

  function ListLoad(recs: seq<Record>): nat
  {
    if recs == [] then 0 else recs[0].load + ListLoad(recs[1..])
  }

  /** The load of all endpoints met in frame slot s. */
  function SlotLoad(lists: seq<seq<Record>>, s: nat): nat
    requires |lists| == LISTS && s < SLOTS
  {
    ListLoad(lists[s]) + ListLoad(lists[32 + s % 16]) + ListLoad(lists[48 + s % 8])
    + ListLoad(lists[56 + s % 4]) + ListLoad(lists[60 + s % 2]) + ListLoad(lists[62])
  }

  /** adjustInterruptBranchLoad: clamp at zero, then store 16 bits. */
  function Adjusted(current: nat, delta: int): nat
  {
    (if current + delta < 0 then 0 else current + delta) % 0x10000
  }

  function AdjustLoad(load: seq<nat>, interval: nat, branch: nat, delta: int): (load': seq<nat>)
    requires |load| == SLOTS
    ensures |load'| == SLOTS
  {
    if interval == 0 || branch >= interval then load
    else seq(SLOTS, s requires 0 <= s < SLOTS =>
               if s % interval == branch then Adjusted(load[s], delta) else load[s])
  }

  ghost predicate RecordOk(r: Record, n: nat)
  {
    IsInterval(r.interval) && r.branch < r.interval && NodeIndex(r.interval, r.branch) == n
  }

  ghost predicate ListsOk(lists: seq<seq<Record>>)
  {
    && |lists| == LISTS
    && (forall l, j :: 0 <= l < NODES && 0 <= j < |lists[l]| ==> RecordOk(lists[l][j], l))
    && (forall l, j :: NODES <= l < LISTS && 0 <= j < |lists[l]| ==> lists[l][j].load == 0)
  }

  /** Every endpoint sits on the node of its interval and branch, and the load recorded for each
      slot is the sum over the endpoints met in that slot and within the frame budget. */
  ghost predicate PlanOk(p: Plan)
  {
    && ListsOk(p.lists)
    && |p.load| == SLOTS
    && forall s :: 0 <= s < SLOTS ==> p.load[s] == SlotLoad(p.lists, s) <= MAX_FRAME_LOAD
  }

  function Removed<T>(xs: seq<T>, j: nat): seq<T>
    requires j < |xs|
  {
    xs[..j] + xs[j + 1..]
  }

  lemma {:induction false} ListLoadRemoved(recs: seq<Record>, j: nat)
    requires j < |recs|
    ensures ListLoad(recs) == recs[j].load + ListLoad(Removed(recs, j))
  {
    if j == 0 {
      assert Removed(recs, 0) == recs[1..];
    } else {
      ListLoadRemoved(recs[1..], j - 1);
      assert Removed(recs, j)[1..] == Removed(recs[1..], j - 1);
      assert Removed(recs, j)[0] == recs[0];
    }
  }

  /** Replacing the list of one interrupt node changes the load of exactly the slots it serves. */
  lemma SlotLoadReplaced(lists: seq<seq<Record>>, n: nat, recs: seq<Record>, s: nat)
    requires |lists| == LISTS && n < LISTS && s < SLOTS
    ensures SlotLoad(lists[n := recs], s)
      == SlotLoad(lists, s) + if n in Path(s) then ListLoad(recs) - ListLoad(lists[n]) else 0
  {
    var p := Path(s);
    assert n in p <==> (n == p[0] || n == p[1] || n == p[2] || n == p[3] || n == p[4] || n == p[5]);
  }

  // ---------------------------------------------------------------- operations

  function EmptyPlan(): Plan
  {
    Plan(seq(LISTS, i => []), seq(SLOTS, i => 0))
  }

  function InsertInterrupt(p: Plan, r: Record): Plan
    requires |p.lists| == LISTS && |p.load| == SLOTS && IsInterval(r.interval)
  {
    var n := NodeIndex(r.interval, r.branch);
    Plan(p.lists[n := [r] + p.lists[n]], AdjustLoad(p.load, r.interval, r.branch, r.load))
  }

  /** addNewEndpoint on the isochronous, control or bulk list. */
  function InsertOther(p: Plan, l: nat, key: Key): Plan
    requires |p.lists| == LISTS && NODES <= l < LISTS
  {
    p.(lists := p.lists[l := [Record(key, 0, 0, 0)] + p.lists[l]])
  }

  ghost function CreateInterrupt(p: Plan, q: Request): (Plan, Status)
    requires |p.lists| == LISTS && |p.load| == SLOTS
  {
    var interval := Interval(q.pollingRate);
    if interval == 0 then (p, NoBandwidth)
    else
      var load := PeriodicLoad(q.speed, q.direction, q.maxPacketSize);
      var branch := Choose(p.load, interval, load);
      if branch >= interval then (p, NoBandwidth)
      else (InsertInterrupt(p, Record(EndpointKey(q.functionAddress, q.endpointNumber, q.direction),
                                      interval, branch, load)), Success)
  }

  predicate Matches(key: Key, wanted: Key, l: nat)
  {
    key.func == wanted.func && key.ep == wanted.ep && (l == CONTROL || key.dir == wanted.dir)
  }

  /** Position of the first matching endpoint of list l, or the list's length. */
  function FindFrom(recs: seq<Record>, wanted: Key, l: nat, j: nat): (k: nat)
    requires j <= |recs|
    ensures j <= k <= |recs|
    ensures k < |recs| ==> Matches(recs[k].key, wanted, l)
    ensures forall i :: j <= i < k ==> !Matches(recs[i].key, wanted, l)
    decreases |recs| - j
  {
    if j == |recs| || Matches(recs[j].key, wanted, l) then j else FindFrom(recs, wanted, l, j + 1)
  }

  lemma FirstMatch(recs: seq<Record>, wanted: Key, l: nat, k: nat)
    requires k <= |recs| && (forall i :: 0 <= i < k ==> !Matches(recs[i].key, wanted, l))
    requires k < |recs| ==> Matches(recs[k].key, wanted, l)
    ensures FindFrom(recs, wanted, l, 0) == k
  {
  }

  predicate HasMatch(lists: seq<seq<Record>>, wanted: Key, l: nat)
    requires l < |lists|
  {
    FindFrom(lists[l], wanted, l, 0) < |lists[l]|
  }

  function LocateNode(lists: seq<seq<Record>>, wanted: Key, n: nat): (l: nat)
    requires |lists| == LISTS && n <= NODES
    ensures l <= NODES && (l < NODES ==> HasMatch(lists, wanted, l))
    ensures forall i :: n <= i < NODES && i < l ==> !HasMatch(lists, wanted, i)
    decreases NODES - n
  {
    if n == NODES || HasMatch(lists, wanted, n) then n else LocateNode(lists, wanted, n + 1)
  }

  /** The list getEndpoint finds the key in: control first, then bulk, isochronous and the tree
      nodes; LISTS when there is none. */
  function Locate(lists: seq<seq<Record>>, wanted: Key): (l: nat)
    requires |lists| == LISTS
    ensures l <= LISTS && (l < LISTS ==> HasMatch(lists, wanted, l))
    ensures l == LISTS ==> forall i :: 0 <= i < LISTS ==> !HasMatch(lists, wanted, i)
  {
    if HasMatch(lists, wanted, CONTROL) then CONTROL
    else if HasMatch(lists, wanted, BULK) then BULK
    else if HasMatch(lists, wanted, ISO) then ISO
    else
      var n := LocateNode(lists, wanted, 0);
      if n < NODES then n else LISTS
  }

  /** The endpoint found under a key has its function and endpoint number, and its direction unless it is a
      control endpoint; when none is found, none has the key. */
  lemma LocatedHasKey(lists: seq<seq<Record>>, wanted: Key)
    requires |lists| == LISTS
    ensures var l := Locate(lists, wanted);
      l < LISTS ==>
        (var j := FindFrom(lists[l], wanted, l, 0);
         && j < |lists[l]| && lists[l][j].key.func == wanted.func && lists[l][j].key.ep == wanted.ep
         && (l == CONTROL || lists[l][j].key.dir == wanted.dir))
    ensures Locate(lists, wanted) == LISTS ==>
      forall l, j :: 0 <= l < LISTS && 0 <= j < |lists[l]| ==> lists[l][j].key != wanted
  {
    if Locate(lists, wanted) == LISTS {
      forall l, j | 0 <= l < LISTS && 0 <= j < |lists[l]| ensures lists[l][j].key != wanted {
        assert !HasMatch(lists, wanted, l);
      }
    }
  }

  function DeleteAt(p: Plan, l: nat, j: nat): Plan
    requires |p.lists| == LISTS && |p.load| == SLOTS && l < LISTS && j < |p.lists[l]|
  {
    var r := p.lists[l][j];
    Plan(p.lists[l := Removed(p.lists[l], j)],
         if l < NODES then AdjustLoad(p.load, r.interval, r.branch, 0 - r.load) else p.load)
  }

  function Delete(p: Plan, wanted: Key): (Plan, Status)
    requires |p.lists| == LISTS && |p.load| == SLOTS
  {
    var l := Locate(p.lists, wanted);
    if l == LISTS then (p, NotFound)
    else (DeleteAt(p, l, FindFrom(p.lists[l], wanted, l, 0)), Success)
  }

  datatype Op = OpCreateInterrupt(request: Request) | OpCreateOther(list: nat, key: Key) | OpDelete(key: Key)

  ghost function Step(p: Plan, op: Op): Plan
    requires |p.lists| == LISTS && |p.load| == SLOTS
  {
    match op
    case OpCreateInterrupt(q) => CreateInterrupt(p, q).0
    case OpCreateOther(l, key) => if NODES <= l < LISTS then InsertOther(p, l, key) else p
    case OpDelete(key) => Delete(p, key).0
  }

  // ---------------------------------------------------------------- what the operations keep

  lemma InsertSlot(p: Plan, r: Record, s: nat)
    requires |p.lists| == LISTS && |p.load| == SLOTS && s < SLOTS
    requires IsInterval(r.interval) && r.branch < r.interval
    requires p.load[s] == SlotLoad(p.lists, s) <= MAX_FRAME_LOAD
    requires s % r.interval == r.branch ==> p.load[s] + r.load <= MAX_FRAME_LOAD
    ensures var p' := InsertInterrupt(p, r);
      p'.load[s] == SlotLoad(p'.lists, s) <= MAX_FRAME_LOAD
  {
    hide Path, NodeIndex, SlotLoad, IsInterval;
    var n := NodeIndex(r.interval, r.branch);
    assert ([r] + p.lists[n])[1..] == p.lists[n];
    SlotLoadReplaced(p.lists, n, [r] + p.lists[n], s);
    OnPath(s, r.interval, r.branch);
  }

  /** Admitting an endpoint on a fitting branch raises exactly the slots that meet it. */
  lemma InsertInterruptKeeps(p: Plan, r: Record)
    requires PlanOk(p) && IsInterval(r.interval) && r.branch < r.interval
    requires Fits(p.load, r.interval, r.branch, r.load)
    ensures PlanOk(InsertInterrupt(p, r))
  {
    hide Path, NodeIndex, SlotLoad, AdjustLoad, IsInterval;
    forall s | 0 <= s < SLOTS
      ensures InsertInterrupt(p, r).load[s] == SlotLoad(InsertInterrupt(p, r).lists, s) <= MAX_FRAME_LOAD
    {
      InsertSlot(p, r, s);
    }
  }

  lemma ChosenKeeps(p: Plan, r: Record)
    requires PlanOk(p) && IsInterval(r.interval) && r.branch < r.interval
    requires r.branch == Choose(p.load, r.interval, r.load)
    ensures PlanOk(InsertInterrupt(p, r))
  {
    ChooseIsBest(p.load, r.interval, r.load, r.interval);
    InsertInterruptKeeps(p, r);
  }

  /** Deleting an endpoint never meets the clamp: every slot it is charged to still holds its load. */
  lemma ClampNeverFires(p: Plan, l: nat, j: nat, s: nat)
    requires PlanOk(p) && l < NODES && j < |p.lists[l]| && s < SLOTS
    requires s % p.lists[l][j].interval == p.lists[l][j].branch
    ensures p.load[s] >= p.lists[l][j].load
    ensures Adjusted(p.load[s], 0 - p.lists[l][j].load) == p.load[s] - p.lists[l][j].load
  {
    var r := p.lists[l][j];
    assert RecordOk(r, l);
    OnPath(s, r.interval, r.branch);
    SlotLoadReplaced(p.lists, l, Removed(p.lists[l], j), s);
    ListLoadRemoved(p.lists[l], j);
  }

  lemma DeleteSlot(p: Plan, l: nat, j: nat, s: nat)
    requires PlanOk(p) && l < LISTS && j < |p.lists[l]| && s < SLOTS
    ensures var p' := DeleteAt(p, l, j);
      p'.load[s] == SlotLoad(p'.lists, s) <= MAX_FRAME_LOAD
  {
    var r := p.lists[l][j];
    hide Path, NodeIndex, SlotLoad, Adjusted, IsInterval;
    SlotLoadReplaced(p.lists, l, Removed(p.lists[l], j), s);
    ListLoadRemoved(p.lists[l], j);
    if l < NODES {
      assert RecordOk(r, l);
      OnPath(s, r.interval, r.branch);
      if s % r.interval == r.branch {
        ClampNeverFires(p, l, j, s);
      }
    }
  }

  lemma DeleteAtKeeps(p: Plan, l: nat, j: nat)
    requires PlanOk(p) && l < LISTS && j < |p.lists[l]|
    ensures PlanOk(DeleteAt(p, l, j))
  {
    hide Path, NodeIndex, SlotLoad, AdjustLoad, RecordOk;
    var p' := DeleteAt(p, l, j);
    forall i | 0 <= i < |p'.lists[l]| ensures p'.lists[l][i] in p.lists[l] {}
    forall s | 0 <= s < SLOTS
      ensures p'.load[s] == SlotLoad(p'.lists, s) <= MAX_FRAME_LOAD
    {
      DeleteSlot(p, l, j, s);
    }
  }

  lemma InsertOtherKeeps(p: Plan, l: nat, key: Key)
    requires PlanOk(p) && NODES <= l < LISTS
    ensures PlanOk(InsertOther(p, l, key))
  {
    var p' := InsertOther(p, l, key);
    forall s | 0 <= s < SLOTS
      ensures p'.load[s] == SlotLoad(p'.lists, s) <= MAX_FRAME_LOAD
    {
      SlotLoadReplaced(p.lists, l, p'.lists[l], s);
    }
  }

  lemma StepKeeps(p: Plan, op: Op)
    requires PlanOk(p)
    ensures PlanOk(Step(p, op))
  {
    match op
    case OpCreateInterrupt(q) =>
      var interval := Interval(q.pollingRate);
      if interval != 0 {
        ChooseIsBest(p.load, interval, PeriodicLoad(q.speed, q.direction, q.maxPacketSize), interval);
        var (p', status) := CreateInterrupt(p, q);
        if status == Success {
          var load := PeriodicLoad(q.speed, q.direction, q.maxPacketSize);
          InsertInterruptKeeps(p, Record(EndpointKey(q.functionAddress, q.endpointNumber, q.direction),
                                         interval, Choose(p.load, interval, load), load));
        }
      }
    case OpCreateOther(l, key) =>
      if NODES <= l < LISTS { InsertOtherKeeps(p, l, key); }
    case OpDelete(key) =>
      var l := Locate(p.lists, key);
      if l < LISTS { DeleteAtKeeps(p, l, FindFrom(p.lists[l], key, l, 0)); }
  }

  /** The plan after a run of operations, from the empty plan. */
  ghost function Run(ops: seq<Op>): (p: Plan)
    ensures |p.lists| == LISTS && |p.load| == SLOTS
  {
    if ops == [] then EmptyPlan() else Step(Run(ops[..|ops| - 1]), ops[|ops| - 1])
  }

  lemma EmptyPlanOk()
    ensures PlanOk(EmptyPlan())
  {
  }

  /** After any sequence of creates and deletes every endpoint sits on the node of its interval and
      branch, each slot's record is the sum over the endpoints met in it, and no frame is over
      budget. */
  lemma {:induction false} EveryRunBalanced(ops: seq<Op>)
    ensures PlanOk(Run(ops))
  {
    if ops == [] {
      EmptyPlanOk();
    } else {
      EveryRunBalanced(ops[..|ops| - 1]);
      StepKeeps(Run(ops[..|ops| - 1]), ops[|ops| - 1]);
    }
  }

  /** An interrupt endpoint is refused exactly when its polling rate is zero or every branch of its
      interval has a slot the endpoint would push past the budget. */
  lemma RefusedExactlyWhenFull(p: Plan, q: Request)
    requires PlanOk(p)
    ensures var interval := Interval(q.pollingRate);
            var load := PeriodicLoad(q.speed, q.direction, q.maxPacketSize);
      CreateInterrupt(p, q).1 == NoBandwidth <==>
      interval == 0 || forall b :: 0 <= b < interval ==> Overloaded(p.load, interval, b, load)
  {
    var interval := Interval(q.pollingRate);
    var load := PeriodicLoad(q.speed, q.direction, q.maxPacketSize);
    if interval != 0 {
      ChooseIsBest(p.load, interval, load, interval);
      forall b | 0 <= b < interval
        ensures Fits(p.load, interval, b, load) <==> !Overloaded(p.load, interval, b, load)
      {
      }
    }
  }

  lemma LocateInserted(lists: seq<seq<Record>>, n: nat, r: Record)
    requires |lists| == LISTS && n < NODES && Locate(lists, r.key) == LISTS
    ensures Locate(lists[n := [r] + lists[n]], r.key) == n
    ensures FindFrom([r] + lists[n], r.key, n, 0) == 0
  {
    var lists' := lists[n := [r] + lists[n]];
    assert HasMatch(lists', r.key, n);
    forall i | 0 <= i < LISTS && i != n ensures !HasMatch(lists', r.key, i) {
      assert !HasMatch(lists, r.key, i);
    }
  }

  lemma AdjustBack(load: seq<nat>, interval: nat, branch: nat, extra: nat)
    requires |load| == SLOTS && IsInterval(interval) && branch < interval
    requires Fits(load, interval, branch, extra) && forall s :: 0 <= s < SLOTS ==> load[s] <= MAX_FRAME_LOAD
    ensures AdjustLoad(AdjustLoad(load, interval, branch, extra), interval, branch, 0 - extra) == load
  {
  }

  lemma DeleteInserted(p: Plan, r: Record)
    requires |p.lists| == LISTS && |p.load| == SLOTS && IsInterval(r.interval) && r.branch < r.interval
    requires Fits(p.load, r.interval, r.branch, r.load)
    requires forall s :: 0 <= s < SLOTS ==> p.load[s] <= MAX_FRAME_LOAD
    ensures DeleteAt(InsertInterrupt(p, r), NodeIndex(r.interval, r.branch), 0) == p
  {
    var n := NodeIndex(r.interval, r.branch);
    var p1 := InsertInterrupt(p, r);
    assert p1.lists[n] == [r] + p.lists[n];
    AdjustBack(p.load, r.interval, r.branch, r.load);
    assert Removed([r] + p.lists[n], 0) == p.lists[n];
    assert p1.lists[n := p.lists[n]] == p.lists;
  }

  lemma InsertThenDelete(p: Plan, r: Record)
    requires PlanOk(p) && IsInterval(r.interval) && r.branch < r.interval
    requires Fits(p.load, r.interval, r.branch, r.load) && Locate(p.lists, r.key) == LISTS
    ensures Delete(InsertInterrupt(p, r), r.key) == (p, Success)
  {
    DeleteInserted(p, r);
    LocateInserted(p.lists, NodeIndex(r.interval, r.branch), r);
  }

  /** Creating an interrupt endpoint under a key nothing answers to and deleting that key again
      restores the whole plan: the lists and the load of every slot. */
  lemma CreateThenDelete(p: Plan, q: Request)
    requires PlanOk(p)
    requires Locate(p.lists, EndpointKey(q.functionAddress, q.endpointNumber, q.direction)) == LISTS
    requires CreateInterrupt(p, q).1 == Success
    ensures Delete(CreateInterrupt(p, q).0, EndpointKey(q.functionAddress, q.endpointNumber, q.direction))
      == (p, Success)
  {
    var interval := Interval(q.pollingRate);
    var load := PeriodicLoad(q.speed, q.direction, q.maxPacketSize);
    var branch := Choose(p.load, interval, load);
    ChooseIsBest(p.load, interval, load, interval);
    InsertThenDelete(p, Record(EndpointKey(q.functionAddress, q.endpointNumber, q.direction),
                               interval, branch, load));
  }

  // ---------------------------------------------------------------- the least loaded branch

  /** The highest load of slots s, s + interval, ... */
  function PeakFrom(load: seq<nat>, interval: nat, s: nat): (peak: nat)
    requires |load| == SLOTS && interval > 0
    ensures forall t :: s <= t < SLOTS && t % interval == s % interval ==> load[t] <= peak
    ensures s < SLOTS ==> exists t :: s <= t < SLOTS && t % interval == s % interval && load[t] == peak
    decreases SLOTS - s
  {
    if s >= SLOTS then 0
    else
      var rest := PeakFrom(load, interval, s + interval);
      NextOnBranch(interval, s);
      if load[s] > rest then load[s] else rest
  }

  lemma NextOnBranch(interval: nat, s: nat)
    requires interval > 0
    ensures (s + interval) % interval == s % interval
    ensures forall t :: s < t < s + interval ==> t % interval != s % interval
  {
    ModShift(s, 1, interval);
    forall t | s < t < s + interval ensures t % interval != s % interval { ModGap(s, t - s, interval); }
  }

  /** The load of a branch's fullest slot. */
  function Peak(load: seq<nat>, interval: nat, branch: nat): nat
    requires |load| == SLOTS && interval > 0
  {
    PeakFrom(load, interval, branch)
  }

  /** The branch chosen, if any, has the lowest peak of all that fit. */
  ghost predicate ChoosesLeastLoaded(load: seq<nat>, interval: nat, extra: nat)
    requires |load| == SLOTS && IsInterval(interval)
  {
    var best := Choose(load, interval, extra);
    best != NO_BRANCH ==>
      forall b :: 0 <= b < interval && Fits(load, interval, b, extra) ==>
        Peak(load, interval, best) <= Peak(load, interval, b)
  }

  /** All slots of a branch carry the same load. */
  ghost predicate EvenBranches(load: seq<nat>, interval: nat)
    requires |load| == SLOTS && interval > 0
  {
    forall s, t :: 0 <= s < SLOTS && 0 <= t < SLOTS && s % interval == t % interval ==> load[s] == load[t]
  }

  lemma EvenChoice(load: seq<nat>, interval: nat, extra: nat)
    requires |load| == SLOTS && IsInterval(interval) && EvenBranches(load, interval)
    ensures ChoosesLeastLoaded(load, interval, extra)
  {
    hide Peak, EvenBranches, Fits, IsInterval;
    ChooseIsBest(load, interval, extra, interval);
    forall b | 0 <= b < interval && b < SLOTS ensures Peak(load, interval, b) == load[b] {
      EvenPeak(load, interval, b);
    }
    IntervalFits(interval);
  }

  lemma EvenPeak(load: seq<nat>, interval: nat, branch: nat)
    requires |load| == SLOTS && interval > 0 && branch < SLOTS && EvenBranches(load, interval)
    ensures Peak(load, interval, branch) == load[branch]
  {
  }

  lemma IntervalFits(interval: nat)
    requires IsInterval(interval)
    ensures 0 < interval <= SLOTS
  {
  }

  /** No interrupt endpoint is polled less often than every `interval` frames. */
  ghost predicate NoneSlower(lists: seq<seq<Record>>, interval: nat)
    requires |lists| == LISTS
  {
    forall l, j :: 0 <= l < NODES && 0 <= j < |lists[l]| ==> lists[l][j].interval <= interval
  }

  /** The nodes polled less often than every `interval` frames. */
  function FirstNode(interval: nat): nat
  {
    match interval case 1 => 62 case 2 => 60 case 4 => 56 case 8 => 48 case 16 => 32 case _ => 0
  }

  lemma NodeOfFaster(r: Record, n: nat, interval: nat)
    requires RecordOk(r, n) && IsInterval(interval) && r.interval <= interval
    ensures n >= FirstNode(interval)
  {
  }

  lemma SlowerEmpty(lists: seq<seq<Record>>, interval: nat)
    requires ListsOk(lists) && IsInterval(interval) && NoneSlower(lists, interval)
    ensures forall l :: 0 <= l < FirstNode(interval) && l < NODES ==> lists[l] == []
  {
    hide RecordOk, FirstNode;
    forall l | 0 <= l < NODES && lists[l] != [] ensures l >= FirstNode(interval) {
      NodeOfFaster(lists[l][0], l, interval);
    }
  }

  /** Slots on the same branch walk the same nodes from that branch's rate on. */
  lemma SameNodes(s: nat, t: nat, interval: nat)
    requires s < SLOTS && t < SLOTS && IsInterval(interval) && s % interval == t % interval
    ensures interval == 32 ==> s == t
    ensures interval >= 16 ==> s % 16 == t % 16
    ensures interval >= 8 ==> s % 8 == t % 8
    ensures interval >= 4 ==> s % 4 == t % 4
    ensures interval >= 2 ==> s % 2 == t % 2
  {
    ModHalf(s, 16);
    ModHalf(t, 16);
    ModHalf(s, 8);
    ModHalf(t, 8);
    ModHalf(s, 4);
    ModHalf(t, 4);
    ModHalf(s, 2);
    ModHalf(t, 2);
  }

  lemma SameSlotLoad(lists: seq<seq<Record>>, s: nat, t: nat, interval: nat)
    requires |lists| == LISTS && IsInterval(interval) && s < SLOTS && t < SLOTS
    requires forall l :: 0 <= l < FirstNode(interval) && l < NODES ==> lists[l] == []
    requires interval == 32 ==> s == t
    requires interval >= 16 ==> s % 16 == t % 16
    requires interval >= 8 ==> s % 8 == t % 8
    requires interval >= 4 ==> s % 4 == t % 4
    requires interval >= 2 ==> s % 2 == t % 2
    ensures SlotLoad(lists, s) == SlotLoad(lists, t)
  {
  }

  lemma EvenWithoutSlower(p: Plan, interval: nat)
    requires PlanOk(p) && IsInterval(interval) && NoneSlower(p.lists, interval)
    ensures EvenBranches(p.load, interval)
  {
    hide SlotLoad, FirstNode, NoneSlower, RecordOk;
    SlowerEmpty(p.lists, interval);
    forall s, t | 0 <= s < SLOTS && 0 <= t < SLOTS && s % interval == t % interval
      ensures p.load[s] == p.load[t]
    {
      SameNodes(s, t, interval);
      SameSlotLoad(p.lists, s, t, interval);
    }
  }

  /** As long as no endpoint is polled less often than the new one, its branch is the least loaded of
      all that fit. */
  lemma ChosenLeastLoaded(p: Plan, interval: nat, extra: nat)
    requires PlanOk(p) && IsInterval(interval) && NoneSlower(p.lists, interval)
    ensures ChoosesLeastLoaded(p.load, interval, extra)
  {
    EvenWithoutSlower(p, interval);
    EvenChoice(p.load, interval, extra);
  }

  // ---------------------------------------------------------------- a run that misleads the choice

  /** The k-th of n + 1 endpoints polled every 32 frames: a small one, medium ones, and a large one. */
  function Filler(k: nat, n: nat): Request
  {
    Request(1, k, USB_IN, FullSpeed, if k == 0 then 8 else if k < n then 16 else 64, 32)
  }

  function FillerLoad(k: nat, n: nat): nat { if k == 0 then 17 else if k < n then 23 else 61 }

  lemma FillerRecorded(k: nat, n: nat)
    requires n > 0
    ensures Interval(Filler(k, n).pollingRate) == 32
    ensures PeriodicLoad(FullSpeed, USB_IN, Filler(k, n).maxPacketSize) == FillerLoad(k, n)
  {
  }

  function Fill(m: nat, n: nat): (ops: seq<Op>)
    ensures |ops| == m
  {
    seq(m, k requires 0 <= k < m => OpCreateInterrupt(Filler(k, n)))
  }

  function Filled(m: nat, n: nat): (load: seq<nat>)
    ensures |load| == SLOTS
  {
    seq(SLOTS, s requires 0 <= s < SLOTS => if s < m then FillerLoad(s, n) else 0)
  }

  lemma FillNext(p: Plan, m: nat, n: nat)
    requires |p.lists| == LISTS && p.load == Filled(m, n) && m < SLOTS && n > 0
    ensures Step(p, OpCreateInterrupt(Filler(m, n))).load == Filled(m + 1, n)
  {
    hide Choose, PeriodicLoad, Interval;
    FillerRecorded(m, n);
    FreeSlotChosen(m, n);
  }

  lemma FreeSlotChosen(m: nat, n: nat)
    requires m < SLOTS && n > 0
    ensures Choose(Filled(m, n), 32, FillerLoad(m, n)) == m
  {
    var load := Filled(m, n);
    ChooseIsBest(load, 32, FillerLoad(m, n), 32);
    assert Fits(load, 32, m, FillerLoad(m, n));
    assert load[m] == 0;
  }

  /** The endpoints take one slot after the other. */
  lemma {:induction false} FillRun(m: nat, n: nat)
    requires m <= SLOTS && n > 0
    ensures Run(Fill(m, n)).load == Filled(m, n)
  {
    if m > 0 {
      assert Fill(m, n)[..m - 1] == Fill(m - 1, n);
      FillRun(m - 1, n);
      FillNext(Run(Fill(m - 1, n)), m - 1, n);
    }
  }

  /** With one endpoint on each branch and a large one behind the small one of branch 0, that branch is
      chosen although its peak is the highest of all. */
  lemma MisledChoice(interval: nat)
    requires interval == 2 || interval == 4 || interval == 8 || interval == 16
    ensures var load := Run(Fill(interval + 1, interval)).load;
      && Choose(load, interval, 17) == 0 && Peak(load, interval, 0) == 61
      && Fits(load, interval, 1, 17) && Peak(load, interval, 1) == 23
      && !ChoosesLeastLoaded(load, interval, 17)
  {
    hide Peak, Choose, Filled, Fits;
    FillRun(interval + 1, interval);
    FilledBranches(interval);
    FilledChoice(interval);
  }

  lemma FilledChoice(interval: nat)
    requires interval == 2 || interval == 4 || interval == 8 || interval == 16
    ensures var load := Filled(interval + 1, interval);
      Choose(load, interval, 17) == 0 && Fits(load, interval, 1, 17)
  {
    var load := Filled(interval + 1, interval);
    ChooseIsBest(load, interval, 17, interval);
    assert Fits(load, interval, 0, 17);
    assert load[0] == 17;
  }

  lemma FilledBranches(interval: nat)
    requires interval == 2 || interval == 4 || interval == 8 || interval == 16
    ensures var load := Filled(interval + 1, interval); Peak(load, interval, 0) == 61 && Peak(load, interval, 1) == 23
  {
    hide Peak;
    var load := Filled(interval + 1, interval);
    assert interval % interval == 0 && 1 % interval == 1;
    PeakIs(load, interval, 0, interval);
    PeakIs(load, interval, 1, 1);
  }

  lemma PeakIs(load: seq<nat>, interval: nat, branch: nat, s: nat)
    requires |load| == SLOTS && branch < interval && branch <= s < SLOTS && s % interval == branch
    requires forall t :: 0 <= t < SLOTS && t % interval == branch ==> load[t] <= load[s]
    ensures Peak(load, interval, branch) == load[s]
  {
    ModUnique(branch, 0, branch, interval);
  }

  /** The driver picks the least loaded of the branches that fit in every reachable state if and only
      if the endpoint is polled every frame or every 32 frames. */
  lemma LeastLoadedIff(interval: nat)
    requires IsInterval(interval)
    ensures (forall ops: seq<Op>, extra: nat :: ChoosesLeastLoaded(Run(ops).load, interval, extra))
      <==> interval == 1 || interval == 32
  {
    if interval == 1 || interval == 32 {
      forall ops: seq<Op>, extra: nat ensures ChoosesLeastLoaded(Run(ops).load, interval, extra) {
        EveryRunBalanced(ops);
        if interval == 32 { AllWithin32(Run(ops).lists); }
        EvenOrSingle(Run(ops), interval, extra);
      }
    } else {
      MisledChoice(interval);
    }
  }

  lemma AllWithin32(lists: seq<seq<Record>>)
    requires ListsOk(lists)
    ensures NoneSlower(lists, 32)
  {
    forall l, j | 0 <= l < NODES && 0 <= j < |lists[l]| ensures lists[l][j].interval <= 32 {
      assert RecordOk(lists[l][j], l);
    }
  }

  lemma EvenOrSingle(p: Plan, interval: nat, extra: nat)
    requires PlanOk(p) && (interval == 1 || (interval == 32 && NoneSlower(p.lists, 32)))
    ensures ChoosesLeastLoaded(p.load, interval, extra)
  {
    if interval == 32 { ChosenLeastLoaded(p, interval, extra); }
  }
}
