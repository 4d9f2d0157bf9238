/**
 The hand-over of retired transfer descriptors between the host controller, the interrupt filter,
 the watchdog, the inbound isochronous timer and the work loop's handler, as steps that interleave
 at every access to a register, to shared memory and to a lock.

 The filter and the watchdog take the two list locks with interrupts on, so the filter may preempt
 the watchdog while it holds one; then the watchdog stands still until the filter returns.  What
 the others do under a lock they do with interrupts off, and it is one step here.

 Retirements are numbered 0, 1, 2, ...; lists hold retirement numbers.
 */
module OhciDoneProtocol {
  import opened OhciDoneQueue

  /** Where one of the two claiming contexts stands: it claims the written-back list, then takes the
      main lock, splices and releases it, then does the same with the inbound lock, and signals. */
  datatype Claim = Idle | Seen | Checked | HasRead(list: seq<int>) | HasCleared(list: seq<int>)
    | AtMain(list: seq<int>) | InMain(list: seq<int>) | MainSpliced(list: seq<int>)
    | AtInbound(list: seq<int>, signal: bool) | InInbound(list: seq<int>, signal: bool) | InboundSpliced(signal: bool)
    | MustSignal

  datatype Timer = Waiting | Carrying(list: seq<int>) | TimerSignals

  datatype Handler = Asleep | Started | Completing(list: seq<int>)

  /** `hc` is the controller's own list and `hcca` the one it last wrote back, both newest first;
      `read` says whether the latter has been read since.  `preempted` says that the filter runs on the
      processor of the watchdog, which stands still meanwhile. */
  datatype State = State(side: seq<bool>, hc: seq<int>, hcca: seq<int>, read: bool, wdh: bool,
                         filter: Claim, watchdog: Claim, preempted: bool, pending: seq<int>, inbound: seq<int>,
                         flag: bool, timer: Timer, signalled: bool, handler: Handler, done: seq<int>)

  datatype Step = Retire(isInbound: bool) | WriteBack | Interrupt(preempts: bool) | Filter | Watchdog | Timer | Handler

  const INITIAL :=
    State([], [], [], false, false, Idle, Idle, false, [], [], false, Waiting, false, Asleep, [])

  predicate HoldsMain(c: Claim) { c.InMain? || c.MainSpliced? }

  predicate HoldsInbound(c: Claim) { c.InInbound? || c.InboundSpliced? }

  predicate MainFree(s: State) { !HoldsMain(s.filter) && !HoldsMain(s.watchdog) }

  predicate InboundFree(s: State) { !HoldsInbound(s.filter) && !HoldsInbound(s.watchdog) }

  /** The next access of a claiming context, which finds the locks free or spins.  The filter goes on
      with an empty list, the watchdog does not. */
  function Advance(s: State, c: Claim, isWatchdog: bool, mainFree: bool, inboundFree: bool): (State, Claim)
  {
    match c
    case Idle => (s, if isWatchdog && s.wdh then Seen else Idle)
    case Seen => (s, if !mainFree then Seen else if s.flag || s.pending != [] then Idle else Checked)
    case Checked =>
      if isWatchdog && s.hcca == [] then (s, Idle) else (s.(read := true), HasRead(s.hcca))
    case HasRead(list) => (s.(hcca := []), HasCleared(list))
    case HasCleared(list) => (s.(wdh := false), AtMain(list))
    case AtMain(list) =>
      (s, if OldestFirst(s.side, false, list) == [] then AtInbound(list, false)
          else if mainFree then InMain(list) else AtMain(list))
    case InMain(list) =>
      (s.(pending := OldestFirst(s.side, false, list) + s.pending, flag := true), MainSpliced(list))
    case MainSpliced(list) => (s, AtInbound(list, true))
    case AtInbound(list, signal) =>
      (s, if OldestFirst(s.side, true, list) == [] then Finished(signal)
          else if inboundFree then InInbound(list, signal) else AtInbound(list, signal))
    case InInbound(list, signal) =>
      (s.(inbound := OldestFirst(s.side, true, list) + s.inbound), InboundSpliced(signal))
    case InboundSpliced(signal) => (s, Finished(signal))
    case MustSignal => (s.(signalled := true), Idle)
  }

  function Finished(signal: bool): Claim { if signal then MustSignal else Idle }

  function TimerStep(s: State): State
  {
    match s.timer
    case Waiting => if InboundFree(s) then s.(timer := Carrying(s.inbound), inbound := []) else s
    case Carrying(list) =>
      if list == [] then s.(timer := Waiting)
      else if MainFree(s) then s.(timer := TimerSignals, pending := list + s.pending, flag := true) else s
    case TimerSignals => s.(timer := Waiting, signalled := true)
  }

  function HandlerStep(s: State): State
  {
    match s.handler
    case Asleep => if s.signalled then s.(handler := Started, signalled := false) else s
    case Started =>
      if !MainFree(s) then s
      else if s.flag || s.pending != [] then s.(handler := Completing(s.pending), pending := [], flag := false)
      else s.(handler := Asleep)
    case Completing(list) =>
      if list == [] then s.(handler := Asleep) else s.(handler := Completing(list[1..]), done := s.done + [list[0]])
  }

  lemma TimerFrame(s: State)
    ensures var s' := TimerStep(s); s' == s.(pending := s'.pending, inbound := s'.inbound, flag := s'.flag,
                                             timer := s'.timer, signalled := s'.signalled)
  {
  }

  lemma HandlerFrame(s: State)
    ensures var s' := HandlerStep(s); s' == s.(pending := s'.pending, flag := s'.flag, signalled := s'.signalled,
                                               handler := s'.handler, done := s'.done)
  {
    hide MainFree;
    match s.handler
    case Asleep =>
    case Started =>
    case Completing(list) => if list == [] {}
  }

  function FilterStep(s: State): State
  {
    var (s', c) := Advance(s, s.filter, false, !HoldsMain(s.watchdog), !HoldsInbound(s.watchdog));
    s'.(filter := c, preempted := s.preempted && !c.Idle?)
  }

  function WatchdogStep(s: State): State
  {
    if s.preempted then s
    else
      var (s', c) := Advance(s, s.watchdog, true, !HoldsMain(s.filter), !HoldsInbound(s.filter));
      s'.(watchdog := c)
  }

  function Next(s: State, step: Step): State
  {
    match step
    case Retire(isInbound) => s.(side := s.side + [isInbound], hc := [|s.side|] + s.hc)
    case WriteBack => if s.wdh || s.hc == [] then s else s.(hcca := s.hc, read := false, hc := [], wdh := true)
    case Interrupt(preempts) => if s.filter.Idle? && s.wdh then s.(filter := Checked, preempted := preempts) else s
    case Filter => FilterStep(s)
    case Watchdog => WatchdogStep(s)
    case Timer => TimerStep(s)
    case Handler => HandlerStep(s)
  }

  function Run(steps: seq<Step>): State
  {
    if steps == [] then INITIAL else Next(Run(steps[..|steps| - 1]), steps[|steps| - 1])
  }

  // ---------------------------------------------------------------- what each context does alone

  /** A context goes on with its claim for n accesses while no other holds a lock. */
  function Claimed(s: State, c: Claim, isWatchdog: bool, n: nat): (State, Claim)
    decreases n
  {
    if n == 0 then (s, c)
    else var (s', c') := Advance(s, c, isWatchdog, true, true); Claimed(s', c', isWatchdog, n - 1)
  }

  /** A claim that is not disturbed removes the list, acknowledges it, puts its transfers, oldest first and
      divided by their side, in front of what waits, and signals if the main list got any. */
  lemma ClaimAlone(s: State, isWatchdog: bool) returns (n: nat)
    requires isWatchdog ==> s.hcca != []
    ensures var main, iso := OldestFirst(s.side, false, s.hcca), OldestFirst(s.side, true, s.hcca);
      Claimed(s, Checked, isWatchdog, n)
      == (s.(hcca := [], read := true, wdh := false, pending := main + s.pending, inbound := iso + s.inbound,
             flag := s.flag || main != [], signalled := s.signalled || main != []), Idle)
  {
    hide OldestFirst;
    var main, iso := OldestFirst(s.side, false, s.hcca), OldestFirst(s.side, true, s.hcca);
    var s1 := s.(hcca := [], read := true, wdh := false);
    var s2 := if main == [] then s1 else s1.(pending := main + s.pending, flag := true);
    assert [] + s.pending == s.pending && [] + s.inbound == s.inbound;
    var m, i := (if main == [] then 1 else 3), (if iso == [] then 1 else 3);
    Spliced(s2, s.hcca, isWatchdog, main != [], i);
    assert Claimed(s1, AtMain(s.hcca), isWatchdog, m + i + if main == [] then 0 else 1)
      == Claimed(s2, AtInbound(s.hcca, main != []), isWatchdog, i + if main == [] then 0 else 1) by {
      MainDivided(s1, s.hcca, isWatchdog, i + if main == [] then 0 else 1);
    }
    n := 3 + m + i + if main == [] then 0 else 1;
    ListTaken(s, isWatchdog, n - 3);
  }

  lemma ListTaken(s: State, isWatchdog: bool, n: nat)
    requires isWatchdog ==> s.hcca != []
    ensures Claimed(s, Checked, isWatchdog, n + 3)
      == Claimed(s.(hcca := [], read := true, wdh := false), AtMain(s.hcca), isWatchdog, n)
  {
    hide OldestFirst;
    var s1 := s.(read := true);
    assert Claimed(s, Checked, isWatchdog, n + 3) == Claimed(s1, HasRead(s.hcca), isWatchdog, n + 2);
    assert Claimed(s1, HasRead(s.hcca), isWatchdog, n + 2)
      == Claimed(s1.(hcca := []), HasCleared(s.hcca), isWatchdog, n + 1);
  }

  lemma MainDivided(s: State, list: seq<int>, isWatchdog: bool, n: nat)
    ensures var main := OldestFirst(s.side, false, list);
      Claimed(s, AtMain(list), isWatchdog, n + if main == [] then 1 else 3)
      == Claimed(if main == [] then s else s.(pending := main + s.pending, flag := true),
                 AtInbound(list, main != []), isWatchdog, n)
  {
    hide OldestFirst;
    var main := OldestFirst(s.side, false, list);
    if main != [] {
      assert Claimed(s, AtMain(list), isWatchdog, n + 3) == Claimed(s, InMain(list), isWatchdog, n + 2);
      assert Claimed(s, InMain(list), isWatchdog, n + 2)
        == Claimed(s.(pending := main + s.pending, flag := true), MainSpliced(list), isWatchdog, n + 1);
    }
  }

  lemma Spliced(s: State, list: seq<int>, isWatchdog: bool, signal: bool, i: nat)
    requires i == if OldestFirst(s.side, true, list) == [] then 1 else 3
    ensures var iso := OldestFirst(s.side, true, list);
      Claimed(s, AtInbound(list, signal), isWatchdog, i + if signal then 1 else 0)
      == (s.(inbound := iso + s.inbound, signalled := s.signalled || signal), Idle)
  {
    hide OldestFirst;
    var iso, n := OldestFirst(s.side, true, list), if signal then 1 else 0;
    assert [] + s.inbound == s.inbound;
    if iso != [] {
      var s1 := s.(inbound := iso + s.inbound);
      assert Claimed(s, AtInbound(list, signal), isWatchdog, n + 3)
        == Claimed(s, InInbound(list, signal), isWatchdog, n + 2);
      assert Claimed(s, InInbound(list, signal), isWatchdog, n + 2)
        == Claimed(s1, InboundSpliced(signal), isWatchdog, n + 1);
      assert Claimed(s1, InboundSpliced(signal), isWatchdog, n + 1) == Claimed(s1, Finished(signal), isWatchdog, n);
      SignalSent(s1, isWatchdog, signal);
    } else {
      assert Claimed(s, AtInbound(list, signal), isWatchdog, n + 1) == Claimed(s, Finished(signal), isWatchdog, n);
      SignalSent(s, isWatchdog, signal);
    }
  }

  lemma SignalSent(s: State, isWatchdog: bool, signal: bool)
    ensures Claimed(s, Finished(signal), isWatchdog, if signal then 1 else 0)
      == (s.(signalled := s.signalled || signal), Idle)
  {
    if signal { assert Claimed(s, MustSignal, isWatchdog, 1) == Claimed(s.(signalled := true), Idle, isWatchdog, 0); }
  }

  /** The watchdog takes a list up only if its status is raised and the main list is empty. */
  lemma WatchdogLooks(s: State)
    ensures s.wdh && !s.flag && s.pending == [] ==> Claimed(s, Idle, true, 2) == (s, Checked)
    ensures s.wdh && (s.flag || s.pending != []) ==> Claimed(s, Idle, true, 2) == (s, Idle)
    ensures !s.wdh ==> Advance(s, Idle, true, true, true) == (s, Idle)
  {
    if s.wdh {
      assert Claimed(s, Idle, true, 2) == Claimed(s, Seen, true, 1);
      assert Claimed(s, Seen, true, 1) == Claimed(s, if s.flag || s.pending != [] then Idle else Checked, true, 0);
    }
  }

  /** The timer alone moves what is on the inbound list in front of the main one and signals if there was any. */
  lemma TimerAlone(s: State)
    requires s.timer.Waiting? && MainFree(s) && InboundFree(s)
    ensures var s1 := TimerStep(s); var s2 := TimerStep(s1); var s3 := TimerStep(s2);
      if s.inbound == [] then s2 == s
      else s3 == s.(inbound := [], pending := s.inbound + s.pending, flag := true, signalled := true)
  {
  }

  function Handled(s: State, n: nat): State
    decreases n
  {
    if n == 0 then s else Handled(HandlerStep(s), n - 1)
  }

  /** The handler alone completes everything on the main list, in order, and sleeps. */
  lemma HandlerAlone(s: State) returns (n: nat)
    requires s.handler.Asleep? && s.signalled && MainFree(s)
    ensures Handled(s, n) == s.(signalled := false, pending := [], flag := false, done := s.done + s.pending)
  {
    hide MainFree;
    var s1 := s.(handler := Started, signalled := false);
    assert MainFree(s1) by { StillFree(s, s1); }
    assert s.done + [] == s.done;
    if s.flag || s.pending != [] {
      var s2 := s1.(handler := Completing(s.pending), pending := [], flag := false);
      CompletesAll(s2, s.pending);
      n := |s.pending| + 3;
      assert Handled(s, n) == Handled(s1, |s.pending| + 2) == Handled(s2, |s.pending| + 1);
    } else {
      n := 2;
      assert Handled(s, 2) == Handled(s1, 1) == Handled(s1.(handler := Asleep), 0);
    }
  }

  lemma StillFree(s: State, s': State)
    requires MainFree(s) && s'.filter == s.filter && s'.watchdog == s.watchdog
    ensures MainFree(s')
  {
  }

  lemma {:induction false} CompletesAll(s: State, list: seq<int>)
    requires s.handler == Completing(list)
    ensures Handled(s, |list| + 1) == s.(handler := Asleep, done := s.done + list)
    decreases |list|
  {
    hide MainFree;
    if list == [] {
      assert s.done + [] == s.done;
      assert Handled(s, 1) == Handled(s.(handler := Asleep), 0);
    } else {
      var s1 := s.(handler := Completing(list[1..]), done := s.done + [list[0]]);
      CompletesAll(s1, list[1..]);
      assert s.done + [list[0]] + list[1..] == s.done + list;
    }
  }

  // ---------------------------------------------------------------- where the retirements are

  function Count(xs: seq<int>, id: int): nat { multiset(xs)[id] }

  lemma CountConcat(xs: seq<int>, ys: seq<int>, id: int)
    ensures Count(xs + ys, id) == Count(xs, id) + Count(ys, id)
    ensures Count([], id) == 0
  {
  }

  lemma CountFront(xs: seq<int>, id: int)
    requires xs != []
    ensures Count(xs, id) == Count(xs[1..], id) + if xs[0] == id then 1 else 0
    ensures Count([xs[0]], id) == if xs[0] == id then 1 else 0
  {
    assert xs == [xs[0]] + xs[1..];
  }

  function Held(c: Claim, side: seq<bool>, id: int): nat
  {
    match c
    case HasRead(list) => Count(list, id)
    case HasCleared(list) => Count(list, id)
    case AtMain(list) => Count(list, id)
    case InMain(list) => Count(list, id)
    case MainSpliced(list) => Count(OldestFirst(side, true, list), id)
    case AtInbound(list, signal) => Count(OldestFirst(side, true, list), id)
    case InInbound(list, signal) => Count(OldestFirst(side, true, list), id)
    case _ => 0
  }

  /** Copies of retirement `id` a claiming context can touch besides its own. */
  function Touched(s: State, id: int): nat
  {
    (if s.read then 0 else Count(s.hcca, id)) + Count(s.pending, id) + Count(s.inbound, id)
  }

  function Carried(s: State, id: int): nat
  {
    (if s.timer.Carrying? then Count(s.timer.list, id) else 0)
    + (if s.handler.Completing? then Count(s.handler.list, id) else 0) + Count(s.done, id)
  }

  /** How many copies of retirement `id` are on their way or completed; the written-back list counts
      until it is read, from then on its reader's copy does. */
  function Copies(s: State, id: int): nat
  {
    Count(s.hc, id) + Touched(s, id) + Held(s.filter, s.side, id) + Held(s.watchdog, s.side, id) + Carried(s, id)
  }

  /** Every retirement is in exactly one place. */
  ghost predicate ExactlyOnce(s: State)
  {
    forall id :: 0 <= id < |s.side| ==> Copies(s, id) == 1
  }

  /** The step reads a list that has been read, or removes one that has not. */
  predicate Clash(s: State, step: Step)
  {
    match step
    case Retire(isInbound) => false
    case WriteBack => !s.wdh && s.hc != [] && s.hcca != [] && !s.read
    case Interrupt(preempts) => false
    case Filter => ClaimClash(s, s.filter)
    case Watchdog => !s.preempted && ClaimClash(s, s.watchdog)
    case Timer => false
    case Handler => false
  }

  predicate ClaimClash(s: State, c: Claim)
  {
    s.hcca != [] && ((c.Checked? && s.read) || (c.HasRead? && !s.read))
  }

  predicate ClashFree(steps: seq<Step>)
  {
    steps == [] ||
    (ClashFree(steps[..|steps| - 1]) && !Clash(Run(steps[..|steps| - 1]), steps[|steps| - 1]))
  }

  lemma {:induction false} SplitCount(side: seq<bool>, xs: seq<int>, id: int)
    requires Below(|side|, xs)
    ensures Count(OldestFirst(side, false, xs), id) + Count(OldestFirst(side, true, xs), id) == Count(xs, id)
  {
    hide Count;
    CountConcat([], [], id);
    if xs != [] {
      BelowRest(|side|, xs);
      SplitCount(side, xs[1..], id);
      CountFront(xs, id);
      CountConcat(OldestFirst(side, false, xs[1..]), [xs[0]], id);
      CountConcat(OldestFirst(side, true, xs[1..]), [xs[0]], id);
      assert OldestFirst(side, !side[xs[0]], xs) == OldestFirst(side, !side[xs[0]], xs[1..]);
    }
  }

  /** Later retirements do not change which side earlier ones are on. */
  lemma {:induction false} SideGrows(side: seq<bool>, b: bool, isInbound: bool, xs: seq<int>)
    requires Below(|side|, xs)
    ensures OldestFirst(side + [b], isInbound, xs) == OldestFirst(side, isInbound, xs)
  {
    if xs != [] {
      BelowRest(|side|, xs);
      SideGrows(side, b, isInbound, xs[1..]);
    }
  }

  // ---------------------------------------------------------------- numbers in range

  ghost predicate Below(n: nat, xs: seq<int>) { forall x :: x in xs ==> 0 <= x < n }

  lemma BelowRest(n: nat, xs: seq<int>)
    requires Below(n, xs) && xs != []
    ensures Below(n, xs[1..]) && Below(n, [xs[0]]) && 0 <= xs[0] < n
  {
    assert xs[0] in xs;
    assert forall x :: x in [xs[0]] ==> x == xs[0];
    assert forall x :: x in xs[1..] ==> x in xs;
  }

  lemma BelowConcat(n: nat, xs: seq<int>, ys: seq<int>)
    requires Below(n, xs) && Below(n, ys)
    ensures Below(n, xs + ys)
  {
  }

  lemma BelowSide(side: seq<bool>, b: bool, xs: seq<int>)
    requires Below(|side|, xs)
    ensures Below(|side|, OldestFirst(side, b, xs))
  {
    OldestFirstMembers(side, b, xs);
  }

  lemma NoneBelow(n: nat)
    ensures Below(n, [])
  {
  }

  function ListOf(c: Claim): seq<int>
  {
    if c.HasRead? || c.HasCleared? || c.AtMain? || c.InMain? || c.MainSpliced? || c.AtInbound? || c.InInbound?
    then c.list else []
  }

  function CarriedBy(t: Timer): seq<int> { if t.Carrying? then t.list else [] }

  function InHand(h: Handler): seq<int> { if h.Completing? then h.list else [] }

  /** Only retirement numbers that have been given out occur. */
  ghost predicate InRange(s: State)
  {
    var n := |s.side|;
    && Below(n, s.hc) && Below(n, s.hcca) && Below(n, ListOf(s.filter)) && Below(n, ListOf(s.watchdog))
    && Below(n, s.pending) && Below(n, s.inbound) && Below(n, s.done)
    && Below(n, CarriedBy(s.timer)) && Below(n, InHand(s.handler))
  }

  lemma AdvanceInRange(s: State, c: Claim, isWatchdog: bool, mainFree: bool, inboundFree: bool)
    requires InRange(s) && Below(|s.side|, ListOf(c))
    ensures var (s', c') := Advance(s, c, isWatchdog, mainFree, inboundFree);
      InRange(s') && Below(|s.side|, ListOf(c')) && s'.side == s.side
  {
    hide Below, OldestFirst;
    NoneBelow(|s.side|);
    if c.InMain? || c.InInbound? {
      BelowSide(s.side, false, c.list);
      BelowSide(s.side, true, c.list);
      BelowConcat(|s.side|, OldestFirst(s.side, false, c.list), s.pending);
      BelowConcat(|s.side|, OldestFirst(s.side, true, c.list), s.inbound);
    }
  }

  lemma RetireInRange(s: State, isInbound: bool)
    requires InRange(s)
    ensures InRange(Next(s, Retire(isInbound)))
  {
  }

  lemma NextInRange(s: State, step: Step)
    requires InRange(s)
    ensures InRange(Next(s, step))
  {
    hide FilterStep, WatchdogStep, TimerStep, HandlerStep;
    match step
    case Retire(isInbound) => RetireInRange(s, isInbound);
    case Interrupt(preempts) => assert Below(|s.side|, []);
    case Filter => FilterInRange(s);
    case Watchdog => WatchdogInRange(s);
    case Timer => TimerInRange(s);
    case Handler => HandlerInRange(s);
    case WriteBack => assert Below(|s.side|, []);
  }

  lemma FilterInRange(s: State)
    requires InRange(s)
    ensures InRange(FilterStep(s))
  {
    hide Below, Advance;
    AdvanceInRange(s, s.filter, false, !HoldsMain(s.watchdog), !HoldsInbound(s.watchdog));
  }

  lemma WatchdogInRange(s: State)
    requires InRange(s)
    ensures InRange(WatchdogStep(s))
  {
    hide Below, Advance;
    AdvanceInRange(s, s.watchdog, true, !HoldsMain(s.filter), !HoldsInbound(s.filter));
  }

  lemma TimerInRange(s: State)
    requires InRange(s)
    ensures InRange(TimerStep(s))
  {
    hide Below, InRange, TimerStep;
    TimerFrame(s);
    TimerMoves(s);
    OnlyMoved(s, TimerStep(s));
  }

  lemma TimerMoves(s: State)
    requires InRange(s)
    ensures var s', n := TimerStep(s), |s.side|;
      Below(n, s'.pending) && Below(n, s'.inbound) && Below(n, CarriedBy(s'.timer))
  {
    hide Below;
    NoneBelow(|s.side|);
    BelowConcat(|s.side|, CarriedBy(s.timer), s.pending);
  }

  lemma OnlyMoved(s: State, s': State)
    requires InRange(s) && Below(|s.side|, s'.pending) && Below(|s.side|, s'.inbound)
      && Below(|s.side|, CarriedBy(s'.timer))
    requires s' == s.(pending := s'.pending, inbound := s'.inbound, flag := s'.flag, timer := s'.timer,
                      signalled := s'.signalled)
    ensures InRange(s')
  {
    hide Below;
  }

  lemma HandlerInRange(s: State)
    requires InRange(s)
    ensures InRange(HandlerStep(s))
  {
    hide Below, MainFree;
    NoneBelow(|s.side|);
    match s.handler
    case Asleep =>
    case Started =>
    case Completing(list) =>
      if list != [] {
        BelowRest(|s.side|, list);
        BelowConcat(|s.side|, s.done, [list[0]]);
      }
  }

  // ---------------------------------------------------------------- what a step does to the copies

  /** How a step of a claiming context changes the number of copies: not, unless it clashes. */
  function Change(s: State, c: Claim, id: int): int
  {
    if c.Checked? && s.read then Count(s.hcca, id)
    else if c.HasRead? && !s.read then 0 - Count(s.hcca, id)
    else 0
  }

  lemma AdvanceCopies(s: State, c: Claim, isWatchdog: bool, mainFree: bool, inboundFree: bool, id: int)
    requires InRange(s) && Below(|s.side|, ListOf(c))
    ensures var (s', c') := Advance(s, c, isWatchdog, mainFree, inboundFree);
      && s'.hc == s.hc && s'.filter == s.filter && s'.watchdog == s.watchdog && s'.timer == s.timer
      && s'.handler == s.handler && s'.done == s.done && s'.side == s.side
      && Touched(s', id) + Held(c', s.side, id) == Touched(s, id) + Held(c, s.side, id) + Change(s, c, id)
  {
    hide Count, Below, OldestFirst;
    CountConcat([], [], id);
    CountConcat(OldestFirst(s.side, false, ListOf(c)), s.pending, id);
    CountConcat(OldestFirst(s.side, true, ListOf(c)), s.inbound, id);
    SplitCount(s.side, ListOf(c), id);
  }

  function CopiesChange(s: State, step: Step, id: int): int
  {
    match step
    case Retire(isInbound) => if id == |s.side| then 1 else 0
    case WriteBack => if Clash(s, step) then 0 - Count(s.hcca, id) else 0
    case Interrupt(preempts) => 0
    case Filter => Change(s, s.filter, id)
    case Watchdog => if s.preempted then 0 else Change(s, s.watchdog, id)
    case Timer => 0
    case Handler => 0
  }

  lemma NextCopies(s: State, step: Step, id: int)
    requires InRange(s)
    ensures Copies(Next(s, step), id) == Copies(s, id) + CopiesChange(s, step, id)
  {
    hide Count, InRange, OldestFirst, FilterStep, WatchdogStep, TimerStep, HandlerStep, Copies, Change;
    match step
    case Retire(isInbound) => RetireCopies(s, isInbound, id);
    case WriteBack => WriteBackCopies(s, id);
    case Interrupt(preempts) => InterruptCopies(s, preempts, id);
    case Filter => FilterCopies(s, id);
    case Watchdog => WatchdogCopies(s, id);
    case Timer => TimerCopies(s, id);
    case Handler => HandlerCopies(s, id);
  }

  lemma WriteBackCopies(s: State, id: int)
    ensures Copies(Next(s, WriteBack), id) == Copies(s, id) + CopiesChange(s, WriteBack, id)
  {
    hide Count, OldestFirst;
    CountConcat([], [], id);
  }

  lemma InterruptCopies(s: State, preempts: bool, id: int)
    ensures Copies(Next(s, Interrupt(preempts)), id) == Copies(s, id)
  {
    hide Count, OldestFirst;
  }

  lemma FilterCopies(s: State, id: int)
    requires InRange(s)
    ensures Copies(FilterStep(s), id) == Copies(s, id) + Change(s, s.filter, id)
  {
    hide Count, Below, OldestFirst, Advance, Touched, Held, Change;
    var mainFree, inboundFree := !HoldsMain(s.watchdog), !HoldsInbound(s.watchdog);
    AdvanceCopies(s, s.filter, false, mainFree, inboundFree, id);
    SameTouched(Advance(s, s.filter, false, mainFree, inboundFree).0, FilterStep(s), id);
  }

  lemma WatchdogCopies(s: State, id: int)
    requires InRange(s)
    ensures Copies(WatchdogStep(s), id) == Copies(s, id) + if s.preempted then 0 else Change(s, s.watchdog, id)
  {
    hide Count, Below, OldestFirst, Advance, Touched, Held, Change;
    var mainFree, inboundFree := !HoldsMain(s.filter), !HoldsInbound(s.filter);
    AdvanceCopies(s, s.watchdog, true, mainFree, inboundFree, id);
    if !s.preempted {
      SameTouched(Advance(s, s.watchdog, true, mainFree, inboundFree).0, WatchdogStep(s), id);
    }
  }

  lemma SameTouched(s: State, s': State, id: int)
    requires s.read == s'.read && s.hcca == s'.hcca && s.pending == s'.pending && s.inbound == s'.inbound
    ensures Touched(s, id) == Touched(s', id)
  {
  }

  lemma TimerCopies(s: State, id: int)
    ensures Copies(TimerStep(s), id) == Copies(s, id)
  {
    hide Count, OldestFirst, Held, TimerStep;
    TimerFrame(s);
    TimerCounts(s, id);
    CountConcat([], [], id);
  }

  lemma TimerCounts(s: State, id: int)
    ensures var s' := TimerStep(s);
      Count(s'.pending, id) + Count(s'.inbound, id) + Count(CarriedBy(s'.timer), id)
      == Count(s.pending, id) + Count(s.inbound, id) + Count(CarriedBy(s.timer), id)
  {
    hide Count, MainFree, InboundFree;
    CountConcat([], [], id);
    CountConcat(CarriedBy(s.timer), s.pending, id);
  }

  lemma HandlerCopies(s: State, id: int)
    ensures Copies(HandlerStep(s), id) == Copies(s, id)
  {
    hide Count, OldestFirst, Held, MainFree;
    match s.handler
    case Asleep =>
    case Started => CountConcat([], [], id);
    case Completing(list) => CompletingCopies(s, list, id);
  }

  lemma CompletingCopies(s: State, list: seq<int>, id: int)
    requires s.handler == Completing(list)
    ensures Copies(HandlerStep(s), id) == Copies(s, id)
  {
    hide Count, OldestFirst, Held, MainFree;
    CountConcat([], [], id);
    if list != [] {
      CountFront(list, id);
      CountConcat(s.done, [list[0]], id);
    }
  }

  lemma RetireCopies(s: State, isInbound: bool, id: int)
    requires InRange(s)
    ensures Copies(Next(s, Retire(isInbound)), id) == Copies(s, id) + if id == |s.side| then 1 else 0
  {
    hide Count, Below, OldestFirst;
    CountConcat([|s.side|], s.hc, id);
    CountFront([|s.side|], id);
    SideGrows(s.side, isInbound, true, ListOf(s.filter));
    SideGrows(s.side, isInbound, true, ListOf(s.watchdog));
  }

  // ---------------------------------------------------------------- exactly once

  /** A retirement the controller still has, or whose list nobody has read, is nowhere else. */
  ghost predicate Fresh(s: State, id: int)
  {
    && (id in s.hc || (id in s.hcca && !s.read) ==> Copies(s, id) == 1)
    && (id in s.hcca && s.read ==> Copies(s, id) >= 1)
    && (id in s.hc ==> id !in s.hcca)
    && (id >= |s.side| ==> Copies(s, id) == 0)
  }

  ghost predicate Broken(s: State, id: int) { 0 <= id < |s.side| && Copies(s, id) != 1 }

  /** What a step does to the two lists of the controller. */
  ghost predicate ListsFollow(s: State, step: Step, s': State)
  {
    && s'.side == (if step.Retire? then s.side + [step.isInbound] else s.side)
    && s'.hc == (if step.Retire? then [|s.side|] + s.hc else if step.WriteBack? && !s.wdh then [] else s.hc)
    && (if step.WriteBack? && !s.wdh && s.hc != [] then s'.hcca == s.hc && !s'.read else ListKept(s, s'))
  }

  ghost predicate ListKept(s: State, s': State)
  {
    (s'.hcca == s.hcca && (s.read ==> s'.read)) || s'.hcca == []
  }

  lemma NextLists(s: State, step: Step)
    ensures ListsFollow(s, step, Next(s, step))
  {
    hide ListsFollow, Next;
    match step
    case Retire(isInbound) => ControllerLists(s, step);
    case WriteBack => ControllerLists(s, step);
    case Interrupt(preempts) => ControllerLists(s, step);
    case Filter => FilterLists(s);
    case Watchdog => WatchdogLists(s);
    case Timer => TimerLists(s);
    case Handler => HandlerLists(s);
  }

  lemma ControllerLists(s: State, step: Step)
    requires step.Retire? || step.WriteBack? || step.Interrupt?
    ensures ListsFollow(s, step, Next(s, step))
  {
  }

  lemma FilterLists(s: State)
    ensures ListsFollow(s, Filter, Next(s, Filter))
  {
    hide Advance;
    AdvanceLists(s, s.filter, false, !HoldsMain(s.watchdog), !HoldsInbound(s.watchdog));
  }

  lemma WatchdogLists(s: State)
    ensures ListsFollow(s, Watchdog, Next(s, Watchdog))
  {
    hide Advance;
    AdvanceLists(s, s.watchdog, true, !HoldsMain(s.filter), !HoldsInbound(s.filter));
  }

  lemma AdvanceLists(s: State, c: Claim, isWatchdog: bool, mainFree: bool, inboundFree: bool)
    ensures var s' := Advance(s, c, isWatchdog, mainFree, inboundFree).0;
      s'.side == s.side && s'.hc == s.hc && ListKept(s, s')
  {
    hide OldestFirst;
  }

  lemma TimerLists(s: State)
    ensures ListsFollow(s, Timer, Next(s, Timer))
  {
    hide TimerStep;
    TimerFrame(s);
  }

  lemma HandlerLists(s: State)
    ensures ListsFollow(s, Handler, Next(s, Handler))
  {
    hide HandlerStep;
    HandlerFrame(s);
  }

  lemma FreshStays(s: State, step: Step, id: int)
    requires InRange(s) && Fresh(s, id)
    ensures Fresh(Next(s, step), id)
  {
    hide Copies, Next, Advance;
    NextCopies(s, step, id);
    NextLists(s, step);
    ChangeOf(s, step, id);
    Members(s, id);
  }

  /** The copies of a retirement change only when it is handed out, read again or removed unread. */
  lemma ChangeOf(s: State, step: Step, id: int)
    ensures CopiesChange(s, step, id) > 0 ==> (step.Retire? && id == |s.side|) || (s.read && id in s.hcca)
    ensures CopiesChange(s, step, id) < 0 ==> !s.read && id in s.hcca
    ensures CopiesChange(s, step, id) < 0 ==> Next(s, step).hcca == [] || Next(s, step).hcca == s.hc
    ensures !Clash(s, step) && !step.Retire? ==> CopiesChange(s, step, id) == 0
    ensures !Clash(s, step) && step.Retire? ==> CopiesChange(s, step, id) == if id == |s.side| then 1 else 0
    ensures Clash(s, step) && id in s.hcca ==>
      CopiesChange(s, step, id) == if s.read then Count(s.hcca, id) else 0 - Count(s.hcca, id)
  {
  }

  lemma Members(s: State, id: int)
    requires InRange(s)
    ensures id in s.hc ==> 0 <= id < |s.side|
    ensures id in s.hcca ==> 0 <= id < |s.side|
    ensures id in s.hcca && !s.read ==> Copies(s, id) >= Count(s.hcca, id) >= 1
    ensures id in s.hcca && id in s.hc && !s.read ==> Copies(s, id) >= 2
  {
  }

  /** A retirement that is lost or doubled stays so. */
  lemma BrokenStays(s: State, step: Step, id: int)
    requires InRange(s) && Fresh(s, id) && Broken(s, id)
    ensures Broken(Next(s, step), id)
  {
    hide Copies, Next, Advance;
    NextCopies(s, step, id);
    NextLists(s, step);
    ChangeOf(s, step, id);
  }

  /** A clash loses or doubles the list it reads or removes. */
  lemma ClashBreaks(s: State, step: Step)
    requires InRange(s) && Clash(s, step) && (forall id :: Fresh(s, id))
    ensures s.hcca != [] && Broken(Next(s, step), s.hcca[0])
  {
    hide Copies, Next, Advance, Fresh;
    var id := s.hcca[0];
    assert Fresh(s, id);
    NextCopies(s, step, id);
    NextLists(s, step);
    ChangeOf(s, step, id);
    Members(s, id);
    FreshFacts(s, id);
  }

  lemma FreshFacts(s: State, id: int)
    requires Fresh(s, id)
    ensures id in s.hcca && !s.read ==> Copies(s, id) == 1
    ensures id in s.hcca && s.read ==> Copies(s, id) >= 1
  {
  }

  /** Without a clash every retirement stays in exactly one place. */
  lemma NoClashKeeps(s: State, step: Step)
    requires InRange(s) && ExactlyOnce(s) && !Clash(s, step) && (forall id :: Fresh(s, id))
    ensures ExactlyOnce(Next(s, step))
  {
    hide Copies, Next, Advance;
    NextLists(s, step);
    forall id | 0 <= id < |Next(s, step).side| ensures Copies(Next(s, step), id) == 1 {
      NextCopies(s, step, id);
      ChangeOf(s, step, id);
      assert Fresh(s, id);
    }
  }

  lemma {:induction false} RunFresh(steps: seq<Step>)
    ensures InRange(Run(steps)) && forall id :: Fresh(Run(steps), id)
  {
    hide Next;
    if steps == [] {
      InitialFresh();
    } else {
      var s, step := Run(steps[..|steps| - 1]), steps[|steps| - 1];
      var s' := Next(s, step);
      RunFresh(steps[..|steps| - 1]);
      NextInRange(s, step);
      forall id: int ensures Fresh(s', id) { FreshStays(s, step, id); }
    }
  }

  lemma InitialFresh()
    ensures InRange(INITIAL) && ExactlyOnce(INITIAL) && forall id :: Fresh(INITIAL, id)
  {
  }

  /** Over every interleaving of all contexts, every retired descriptor is in exactly one place, on its
      way to completion or completed, if and only if no list was read twice or removed unread. */
  lemma {:induction false} ExactlyOnceIffNoClash(steps: seq<Step>)
    ensures ExactlyOnce(Run(steps)) <==> ClashFree(steps)
  {
    hide Next, Clash, Fresh, Copies;
    if steps == [] {
      InitialFresh();
    } else {
      var before, step := steps[..|steps| - 1], steps[|steps| - 1];
      var s := Run(before);
      RunFresh(before);
      ExactlyOnceIffNoClash(before);
      if !ClashFree(before) {
        var id :| 0 <= id < |s.side| && Copies(s, id) != 1;
        BrokenStays(s, step, id);
      } else if Clash(s, step) {
        ClashBreaks(s, step);
      } else {
        NoClashKeeps(s, step);
      }
    }
  }

  // ---------------------------------------------------------------- claims that do not overlap

  predicate FilterClaims(c: Claim) { c.Checked? || c.HasRead? || c.HasCleared? }

  predicate WatchdogClaims(c: Claim) { c.HasRead? || c.HasCleared? }

  /** One context starts to claim the written-back list while the other is still at it: the filter
      from its look at the status, the watchdog from its read of the list, each until it acknowledges. */
  predicate Overlap(s: State, step: Step)
  {
    match step
    case Interrupt(preempts) => s.filter.Idle? && s.wdh && WatchdogClaims(s.watchdog)
    case Watchdog => !s.preempted && s.watchdog.Checked? && s.hcca != [] && FilterClaims(s.filter)
    case _ => false
  }

  predicate NonOverlapping(steps: seq<Step>)
  {
    steps == [] ||
    (NonOverlapping(steps[..|steps| - 1]) && !Overlap(Run(steps[..|steps| - 1]), steps[|steps| - 1]))
  }

  ghost predicate ClaimOk(s: State, c: Claim)
  {
    && (c.HasRead? ==> s.wdh && s.hcca == c.list && (s.hcca != [] ==> s.read))
    && (c.HasCleared? ==> s.wdh && s.hcca == [])
  }

  /** At most one context claims; the written-back list is unread unless a context has just read it. */
  ghost predicate Orderly(s: State)
  {
    && !(FilterClaims(s.filter) && WatchdogClaims(s.watchdog)) && !s.filter.Seen?
    && (FilterClaims(s.filter) ==> s.wdh) && ClaimOk(s, s.filter) && ClaimOk(s, s.watchdog)
    && (!s.wdh ==> s.hcca == [])
    && (s.read && s.hcca != [] ==> s.filter.HasRead? || s.watchdog.HasRead?)
  }

  lemma OrderlyStays(s: State, step: Step)
    requires Orderly(s) && !Overlap(s, step)
    ensures Orderly(Next(s, step))
  {
    hide Next, Orderly, Overlap;
    match step
    case Filter => FilterOrderly(s);
    case Watchdog => WatchdogOrderly(s);
    case Timer => OthersOrderly(s, step);
    case Handler => OthersOrderly(s, step);
    case Retire(isInbound) => ControllerOrderly(s, step);
    case WriteBack => ControllerOrderly(s, step);
    case Interrupt(preempts) => ControllerOrderly(s, step);
  }

  /** What an access does to the written-back list and its status. */
  lemma AdvanceClaims(s: State, c: Claim, isWatchdog: bool, mainFree: bool, inboundFree: bool)
    ensures var (s', c') := Advance(s, c, isWatchdog, mainFree, inboundFree);
      && s'.filter == s.filter && s'.watchdog == s.watchdog && s'.preempted == s.preempted
      && (c.Checked? ==> if isWatchdog && s.hcca == [] then s' == s && c'.Idle?
                         else s' == s.(read := true) && c' == HasRead(s.hcca))
      && (c.HasRead? ==> s' == s.(hcca := []) && c' == HasCleared(c.list))
      && (c.HasCleared? ==> s' == s.(wdh := false) && c' == AtMain(c.list))
      && (!FilterClaims(c) ==> s'.wdh == s.wdh && s'.hcca == s.hcca && s'.read == s.read && !WatchdogClaims(c'))
      && (c'.Checked? || c'.Seen? ==> isWatchdog || c.Seen?)
  {
    hide OldestFirst;
  }

  lemma FilterOrderly(s: State)
    requires Orderly(s) && !Overlap(s, Filter)
    ensures Orderly(Next(s, Filter))
  {
    hide Advance;
    AdvanceClaims(s, s.filter, false, !HoldsMain(s.watchdog), !HoldsInbound(s.watchdog));
  }

  lemma WatchdogOrderly(s: State)
    requires Orderly(s) && !Overlap(s, Watchdog)
    ensures Orderly(Next(s, Watchdog))
  {
    hide Advance;
    AdvanceClaims(s, s.watchdog, true, !HoldsMain(s.filter), !HoldsInbound(s.filter));
  }

  lemma OthersOrderly(s: State, step: Step)
    requires Orderly(s) && (step.Timer? || step.Handler?)
    ensures Orderly(Next(s, step))
  {
    hide TimerStep, HandlerStep;
    TimerFrame(s);
    HandlerFrame(s);
  }

  lemma ControllerOrderly(s: State, step: Step)
    requires Orderly(s) && !Overlap(s, step) && (step.Retire? || step.WriteBack? || step.Interrupt?)
    ensures Orderly(Next(s, step))
  {
  }

  /** Claims that do not overlap never clash. */
  lemma {:induction false} NoOverlapNoClash(steps: seq<Step>)
    requires NonOverlapping(steps)
    ensures Orderly(Run(steps)) && ClashFree(steps)
  {
    hide Next, Overlap, Clash;
    if steps == [] {
      InitialOrderly();
    } else {
      var before, step := steps[..|steps| - 1], steps[|steps| - 1];
      NoOverlapNoClash(before);
      OrderlyStays(Run(before), step);
      OrderlyNoClash(Run(before), step);
    }
  }

  lemma InitialOrderly()
    ensures Orderly(INITIAL)
  {
  }

  lemma OrderlyNoClash(s: State, step: Step)
    requires Orderly(s) && !Overlap(s, step)
    ensures !Clash(s, step)
  {
  }

  // ---------------------------------------------------------------- wakeups

  predicate WillSignal(c: Claim)
  {
    c.MainSpliced? || ((c.AtInbound? || c.InInbound? || c.InboundSpliced?) && c.signal) || c.MustSignal?
  }

  /** Whatever waits for the handler will be taken: the handler is on its way or will be signalled. */
  ghost predicate Awake(s: State)
  {
    s.pending != [] ==>
      s.signalled || WillSignal(s.filter) || WillSignal(s.watchdog) || s.timer.TimerSignals? || s.handler.Started?
  }

  lemma AwakeStays(s: State, step: Step)
    requires Awake(s)
    ensures Awake(Next(s, step))
  {
    hide Next, Awake;
    match step
    case Filter => FilterAwake(s);
    case Watchdog => WatchdogAwake(s);
    case Timer => TimerAwake(s);
    case Handler => HandlerAwake(s);
    case Retire(isInbound) => OthersAwake(s, step);
    case WriteBack => OthersAwake(s, step);
    case Interrupt(preempts) => OthersAwake(s, step);
  }

  /** An access that adds to the main list will be followed by a signal. */
  lemma AdvanceSignals(s: State, c: Claim, isWatchdog: bool, mainFree: bool, inboundFree: bool)
    ensures var (s', c') := Advance(s, c, isWatchdog, mainFree, inboundFree);
      && s'.filter == s.filter && s'.watchdog == s.watchdog && s'.timer == s.timer && s'.handler == s.handler
      && (s.signalled ==> s'.signalled) && (WillSignal(c) ==> WillSignal(c') || s'.signalled)
      && (s'.pending == s.pending || WillSignal(c'))
  {
    hide OldestFirst;
  }

  lemma FilterAwake(s: State)
    requires Awake(s)
    ensures Awake(Next(s, Filter))
  {
    hide Advance;
    AdvanceSignals(s, s.filter, false, !HoldsMain(s.watchdog), !HoldsInbound(s.watchdog));
  }

  lemma WatchdogAwake(s: State)
    requires Awake(s)
    ensures Awake(Next(s, Watchdog))
  {
    hide Advance;
    AdvanceSignals(s, s.watchdog, true, !HoldsMain(s.filter), !HoldsInbound(s.filter));
  }

  lemma TimerAwake(s: State)
    requires Awake(s)
    ensures Awake(Next(s, Timer))
  {
    hide MainFree, InboundFree, WillSignal;
  }

  lemma HandlerAwake(s: State)
    requires Awake(s)
    ensures Awake(Next(s, Handler))
  {
    hide MainFree, WillSignal;
  }

  lemma OthersAwake(s: State, step: Step)
    requires Awake(s) && (step.Retire? || step.WriteBack? || step.Interrupt?)
    ensures Awake(Next(s, step))
  {
  }

  /** No wakeup is lost in any run. */
  lemma {:induction false} AlwaysAwake(steps: seq<Step>)
    ensures Awake(Run(steps))
  {
    hide Next;
    if steps != [] {
      AlwaysAwake(steps[..|steps| - 1]);
      AwakeStays(Run(steps[..|steps| - 1]), steps[|steps| - 1]);
    }
  }

  // ---------------------------------------------------------------- claims that do overlap

  /** The watchdog reads the list, then the filter interrupts it and reads the same list. */
  const RACE: seq<Step> := [Retire(false), WriteBack, Watchdog, Watchdog, Watchdog, Interrupt(true), Filter]

  lemma RaceStep(k: nat, s: State)
    requires k < |RACE| && Run(RACE[..k]) == s
    ensures Run(RACE[..k + 1]) == Next(s, RACE[k])
  {
    assert RACE[..k + 1][..k] == RACE[..k];
  }

  lemma RaceStart()
    ensures Run(RACE[..0]) == INITIAL
  {
  }

  /** The descriptor is retired and written back, and the watchdog has seen it. */
  const WRITTEN: State := INITIAL.(side := [false], hcca := [0], wdh := true)

  lemma RaceNext()
    ensures Next(Next(INITIAL, Retire(false)), WriteBack) == WRITTEN
    ensures Next(WRITTEN, Watchdog) == WRITTEN.(watchdog := Seen)
    ensures Next(WRITTEN.(watchdog := Seen), Watchdog) == WRITTEN.(watchdog := Checked)
    ensures Next(WRITTEN.(watchdog := Checked), Watchdog) == WRITTEN.(read := true, watchdog := HasRead([0]))
  {
  }

  lemma RaceRun()
    ensures Run(RACE) == WRITTEN.(read := true, watchdog := HasRead([0]), filter := HasRead([0]), preempted := true)
  {
    hide Run, TimerStep, HandlerStep, WatchdogStep;
    RaceStart();
    RaceNext();
    RaceStep(0, INITIAL);
    RaceStep(1, Next(INITIAL, Retire(false)));
    RaceStep(2, WRITTEN);
    RaceStep(3, WRITTEN.(watchdog := Seen));
    RaceStep(4, WRITTEN.(watchdog := Checked));
    var s5 := WRITTEN.(read := true, watchdog := HasRead([0]));
    RaceStep(5, s5);
    RaceStep(6, s5.(filter := Checked, preempted := true));
    assert RACE[..7] == RACE;
  }

  /** Without mutual exclusion the one retired descriptor is on its way to completion twice. */
  lemma DeliveredTwice()
    ensures Copies(Run(RACE), 0) == 2 && |Run(RACE).side| == 1 && !ClashFree(RACE) && !NonOverlapping(RACE)
  {
    hide Run, ClashFree, NonOverlapping;
    RaceRun();
    ExactlyOnceIffNoClash(RACE);
    if NonOverlapping(RACE) { NoOverlapNoClash(RACE); }
  }
}
