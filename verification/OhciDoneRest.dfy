/**
 How the hand-over of retired transfer descriptors ends: when every retirement has been completed at
 rest, exactly when the contexts can still get there, and runs after which they cannot.
 */
module OhciDoneRest {
  import opened OhciDoneQueue
  import opened OhciDoneProtocol

  /** No context has a step left to take. */
  predicate Still(s: State)
  {
    && s.hc == [] && !s.wdh && s.filter.Idle? && s.watchdog.Idle? && s.inbound == []
    && s.timer.Waiting? && !s.signalled && s.handler.Asleep?
  }

  /** The controller has written back a list that no context has read. */
  predicate Unread(s: State) { s.hcca != [] && !s.read }

  /** No context has a step left to take, and no list has been left behind. */
  predicate Quiescent(s: State) { Still(s) && !Unread(s) }

  /** Every retired descriptor has been completed exactly once. */
  ghost predicate AllCompleted(s: State) { forall id :: 0 <= id < |s.side| ==> Count(s.done, id) == 1 }

  lemma StillCopies(s: State, id: int)
    requires Still(s) && Awake(s)
    ensures !Unread(s) ==> Copies(s, id) == Count(s.done, id)
    ensures Unread(s) && id == s.hcca[0] ==> Copies(s, id) > Count(s.done, id)
  {
    hide Count;
    CountConcat([], [], id);
    if s.hcca != [] { CountFront(s.hcca, s.hcca[0]); }
  }

  /** When no context has a step left to take, every retired descriptor has been completed exactly once if
      and only if no list was read twice or removed unread, and none has been left behind unread. */
  lemma CompletedIff(steps: seq<Step>)
    requires Still(Run(steps))
    ensures AllCompleted(Run(steps)) <==> ClashFree(steps) && !Unread(Run(steps))
  {
    hide Next, ClashFree, Run, Count, Copies, Still, Awake;
    var s := Run(steps);
    AlwaysAwake(steps);
    RunFresh(steps);
    ExactlyOnceIffNoClash(steps);
    forall id: int ensures !Unread(s) ==> Copies(s, id) == Count(s.done, id) { StillCopies(s, id); }
    if Unread(s) {
      var id := s.hcca[0];
      StillCopies(s, id);
      Members(s, id);
      assert Fresh(s, id) && id in s.hcca;
    }
  }

  /** When a run without overlapping claims has come to rest, every retired descriptor has been
      completed exactly once. */
  lemma CompletedExactlyOnce(steps: seq<Step>)
    requires NonOverlapping(steps) && Still(Run(steps))
    ensures AllCompleted(Run(steps))
  {
    hide Next, NonOverlapping, ClashFree, Run, Count;
    NoOverlapNoClash(steps);
    CompletedIff(steps);
  }

  // ---------------------------------------------------------------- a filter trapped by the watchdog

  /** The list a claiming context has, or is about to read. */
  function ListAhead(s: State, c: Claim): seq<int> { if c.Checked? then s.hcca else ListOf(c) }

  predicate BeforeMain(c: Claim) { c.Checked? || c.HasRead? || c.HasCleared? || c.AtMain? }

  predicate BeforeInbound(c: Claim) { BeforeMain(c) || c.InMain? || c.MainSpliced? || c.AtInbound? }

  /** Claim w holds the lock of a side on which the list has transfers. */
  predicate Bars(s: State, w: Claim, list: seq<int>, main: bool, inbound: bool)
  {
    || (main && HoldsMain(w) && OldestFirst(s.side, false, list) != [])
    || (inbound && HoldsInbound(w) && OldestFirst(s.side, true, list) != [])
  }

  /** The filter runs on the watchdog's processor and needs a lock that the watchdog holds. */
  predicate Trapped(s: State)
  {
    s.preempted && Bars(s, s.watchdog, ListAhead(s, s.filter), BeforeMain(s.filter), BeforeInbound(s.filter))
  }

  /** The filter preempts the watchdog while that holds the lock of a side on which the written-back
      list has transfers. */
  predicate Traps(s: State, step: Step)
  {
    step.Interrupt? && step.preempts && s.filter.Idle? && s.wdh && Bars(s, s.watchdog, s.hcca, true, true)
  }

  predicate TrapFree(steps: seq<Step>)
  {
    steps == [] || (TrapFree(steps[..|steps| - 1]) && !Traps(Run(steps[..|steps| - 1]), steps[|steps| - 1]))
  }

  /** The watchdog stands still only under a running filter, and the list the filter is about to read
      stays where it is; the filter does not look at the main list first. */
  ghost predicate Frozen(s: State)
  {
    && !s.filter.Seen?
    && (s.preempted ==> !s.filter.Idle? && (BeforeMain(s.filter) && !s.filter.AtMain? ==> s.wdh))
  }

  lemma FrozenStays(s: State, step: Step)
    requires Frozen(s)
    ensures Frozen(Next(s, step))
  {
    hide TimerStep, HandlerStep, OldestFirst;
    TimerFrame(s);
    HandlerFrame(s);
  }

  lemma TrappedIff(s: State, step: Step)
    requires InRange(s) && Frozen(s)
    ensures Trapped(Next(s, step)) <==> Trapped(s) || Traps(s, step)
  {
    hide Next, Trapped, Traps, InRange, Frozen;
    match step
    case Retire(isInbound) => RetireTrapped(s, isInbound);
    case Filter => FilterTrapped(s);
    case Interrupt(preempts) => InterruptTrapped(s, preempts);
    case Watchdog => WatchdogTrapped(s);
    case Timer => OthersTrapped(s, step);
    case Handler => OthersTrapped(s, step);
    case WriteBack => OthersTrapped(s, step);
  }

  lemma RetireTrapped(s: State, isInbound: bool)
    requires InRange(s)
    ensures Trapped(Next(s, Retire(isInbound))) <==> Trapped(s)
    ensures !Traps(s, Retire(isInbound))
  {
    hide OldestFirst;
    var list := ListAhead(s, s.filter);
    SideGrows(s.side, isInbound, false, list);
    SideGrows(s.side, isInbound, true, list);
  }

  lemma InterruptTrapped(s: State, preempts: bool)
    requires Frozen(s)
    ensures Trapped(Next(s, Interrupt(preempts))) <==> Trapped(s) || Traps(s, Interrupt(preempts))
  {
    hide OldestFirst;
  }

  lemma FilterTrapped(s: State)
    requires Frozen(s)
    ensures Trapped(Next(s, Filter)) <==> Trapped(s)
    ensures !Traps(s, Filter)
  {
    hide OldestFirst;
  }

  lemma WatchdogTrapped(s: State)
    ensures Trapped(Next(s, Watchdog)) <==> Trapped(s)
    ensures !Traps(s, Watchdog)
  {
    hide OldestFirst;
  }

  lemma OthersTrapped(s: State, step: Step)
    requires Frozen(s) && (step.Timer? || step.Handler? || step.WriteBack?)
    ensures Trapped(Next(s, step)) <==> Trapped(s)
    ensures !Traps(s, step)
  {
    hide OldestFirst, TimerStep, HandlerStep;
    TimerFrame(s);
    HandlerFrame(s);
  }

  lemma {:induction false} RunFrozen(steps: seq<Step>)
    ensures Frozen(Run(steps))
  {
    hide Next, Frozen;
    if steps == [] {
      InitialFree();
    } else {
      RunFrozen(steps[..|steps| - 1]);
      FrozenStays(Run(steps[..|steps| - 1]), steps[|steps| - 1]);
    }
  }

  lemma InitialFree()
    ensures Frozen(INITIAL) && !Trapped(INITIAL)
  {
  }

  /** The contexts are trapped exactly if a step of the run has trapped them. */
  lemma {:induction false} TrappedSince(steps: seq<Step>)
    ensures Trapped(Run(steps)) <==> !TrapFree(steps)
  {
    hide Next, Trapped, Traps, InRange, Frozen, Fresh;
    if steps == [] {
      InitialFree();
    } else {
      var before := steps[..|steps| - 1];
      TrappedSince(before);
      RunFresh(before);
      RunFrozen(before);
      TrappedIff(Run(before), steps[|steps| - 1]);
    }
  }

  lemma {:induction false} TrapStays(steps: seq<Step>, more: seq<Step>)
    requires TrapFree(steps + more)
    ensures TrapFree(steps)
  {
    hide Traps, Run;
    if more == [] {
      assert steps + more == steps;
    } else {
      assert (steps + more)[..|steps + more| - 1] == steps + more[..|more| - 1];
      TrapStays(steps, more[..|more| - 1]);
    }
  }

  // ---------------------------------------------------------------- lists that nobody will read

  /** A written-back list is unread and its status has been acknowledged. */
  predicate Stranded(s: State) { Unread(s) && !s.wdh }

  /** A context has seen the status and not yet read the list. */
  predicate WillLook(s: State) { s.filter.Checked? || s.watchdog.Seen? || s.watchdog.Checked? }

  predicate Lost(s: State) { Stranded(s) && !WillLook(s) }

  /** The filter will read a second time what the watchdog, which stands still under it, has read. */
  predicate Twice(s: State) { s.preempted && s.filter.Checked? && s.hcca != [] && s.read }

  /** The retirements can no longer all be completed, each once. */
  predicate Doomed(s: State) { Trapped(s) || Lost(s) || Twice(s) }

  /** The filter preempts the watchdog between its read of a list and its removal of it. */
  predicate LooksAgain(s: State, step: Step)
  {
    step.Interrupt? && step.preempts && s.filter.Idle? && s.wdh && s.hcca != [] && s.read
  }

  /** A context acknowledges while the list in memory is unread and no other is about to read it; or the
      watchdog, the last that could, does not because the main list is not empty. */
  predicate Abandons(s: State, step: Step)
  {
    && Unread(s) && !Lost(s)
    && match step
       case Filter => s.filter.HasCleared? && !s.watchdog.Seen? && !s.watchdog.Checked?
       case Watchdog =>
         && !s.preempted && !s.filter.Checked?
         && (s.watchdog.HasCleared? ||
             (s.watchdog.Seen? && !s.wdh && !HoldsMain(s.filter) && (s.flag || s.pending != [])))
       case _ => false
  }

  predicate Dooms(s: State, step: Step) { Traps(s, step) || LooksAgain(s, step) || Abandons(s, step) }

  lemma LostIff(s: State, step: Step)
    requires Frozen(s) && !Clash(s, step)
    ensures Lost(Next(s, step)) <==> Lost(s) || Abandons(s, step)
  {
    hide Next, Lost, Abandons, Frozen, Clash;
    match step
    case Filter => LostByFilter(s);
    case Watchdog => LostByWatchdog(s);
    case Timer => LostByOthers(s, step);
    case Handler => LostByOthers(s, step);
    case Retire(isInbound) => LostByOthers(s, step);
    case WriteBack => LostByOthers(s, step);
    case Interrupt(preempts) => LostByOthers(s, step);
  }

  lemma LostByFilter(s: State)
    requires Frozen(s) && !Clash(s, Filter)
    ensures Lost(Next(s, Filter)) <==> Lost(s) || Abandons(s, Filter)
  {
    hide OldestFirst;
  }

  lemma LostByWatchdog(s: State)
    requires Frozen(s) && !Clash(s, Watchdog)
    ensures Lost(Next(s, Watchdog)) <==> Lost(s) || Abandons(s, Watchdog)
  {
    hide OldestFirst;
  }

  lemma LostByOthers(s: State, step: Step)
    requires !step.Filter? && !step.Watchdog? && !Clash(s, step)
    ensures Lost(Next(s, step)) <==> Lost(s) || Abandons(s, step)
  {
    hide TimerStep, HandlerStep;
    TimerFrame(s);
    HandlerFrame(s);
  }

  lemma TwiceIff(s: State, step: Step)
    requires Frozen(s) && !Clash(s, step)
    ensures Twice(Next(s, step)) <==> Twice(s) || LooksAgain(s, step)
  {
    hide TimerStep, HandlerStep, Advance;
    TimerFrame(s);
    HandlerFrame(s);
    AdvanceClaims(s, s.filter, false, !HoldsMain(s.watchdog), !HoldsInbound(s.watchdog));
    AdvanceClaims(s, s.watchdog, true, !HoldsMain(s.filter), !HoldsInbound(s.filter));
  }

  /** As long as no list is read twice or removed unread, exactly these steps doom the contexts, for
      good. */
  lemma DoomedIff(s: State, step: Step)
    requires InRange(s) && Frozen(s) && !Clash(s, step)
    ensures Doomed(Next(s, step)) <==> Doomed(s) || Dooms(s, step)
  {
    hide Next, Trapped, Lost, Twice, Traps, LooksAgain, Abandons, InRange, Frozen, Clash;
    TrappedIff(s, step);
    LostIff(s, step);
    TwiceIff(s, step);
  }

  // ---------------------------------------------------------------- what clash-free runs keep

  predicate Looking(c: Claim) { c.Seen? || c.Checked? || c.HasRead? || c.HasCleared? }

  /** A list that has been read is about to be removed by its reader, and an unread one has been removed
      by nobody; contexts that both look have the status set. */
  ghost predicate Tidy(s: State)
  {
    && (s.hcca != [] && s.read ==> s.filter.HasRead? || s.watchdog.HasRead?)
    && (Unread(s) ==> !(WatchdogClaims(s.filter) && WatchdogClaims(s.watchdog)))
    && (s.preempted ==> !(s.filter.HasRead? && Unread(s)) && (s.filter.HasCleared? ==> s.hcca == []))
    && (FilterClaims(s.filter) && Looking(s.watchdog) ==> s.wdh)
  }

  /** The flag of the main list is set only while the list is not empty. */
  ghost predicate Flagged(s: State)
  {
    (s.flag ==> s.pending != []) && MainListed(s, s.filter) && MainListed(s, s.watchdog)
  }

  predicate MainListed(s: State, c: Claim) { c.InMain? ==> OldestFirst(s.side, false, c.list) != [] }

  lemma TidyStays(s: State, step: Step)
    requires Tidy(s) && Frozen(s) && !Clash(s, step)
    ensures Tidy(Next(s, step))
  {
    hide Next, Tidy, Frozen, Clash;
    match step
    case Filter => FilterTidy(s);
    case Watchdog => WatchdogTidy(s);
    case Timer => OthersTidy(s, step);
    case Handler => OthersTidy(s, step);
    case Retire(isInbound) => OthersTidy(s, step);
    case WriteBack => OthersTidy(s, step);
    case Interrupt(preempts) => OthersTidy(s, step);
  }

  lemma FilterTidy(s: State)
    requires Tidy(s) && Frozen(s) && !Clash(s, Filter)
    ensures Tidy(Next(s, Filter))
  {
    hide Advance;
    AdvanceClaims(s, s.filter, false, !HoldsMain(s.watchdog), !HoldsInbound(s.watchdog));
  }

  lemma WatchdogTidy(s: State)
    requires Tidy(s) && Frozen(s) && !Clash(s, Watchdog)
    ensures Tidy(Next(s, Watchdog))
  {
    hide OldestFirst;
  }

  lemma OthersTidy(s: State, step: Step)
    requires Tidy(s) && Frozen(s) && !step.Filter? && !step.Watchdog? && !Clash(s, step)
    ensures Tidy(Next(s, step))
  {
    hide TimerStep, HandlerStep;
    TimerFrame(s);
    HandlerFrame(s);
  }

  lemma AdvanceFlagged(s: State, c: Claim, isWatchdog: bool, mainFree: bool, inboundFree: bool)
    requires (s.flag ==> s.pending != []) && MainListed(s, c)
    ensures var (s', c') := Advance(s, c, isWatchdog, mainFree, inboundFree);
      && s'.filter == s.filter && s'.watchdog == s.watchdog && s'.side == s.side
      && (s'.flag ==> s'.pending != []) && MainListed(s, c')
  {
    hide OldestFirst;
  }

  lemma FlaggedStays(s: State, step: Step)
    requires Flagged(s) && InRange(s)
    ensures Flagged(Next(s, step))
  {
    hide Next, Flagged, InRange;
    match step
    case Filter => ClaimsFlagged(s, step);
    case Watchdog => ClaimsFlagged(s, step);
    case Timer => TimerFlagged(s);
    case Handler => HandlerFlagged(s);
    case Retire(isInbound) => ControllerFlagged(s, step);
    case WriteBack => ControllerFlagged(s, step);
    case Interrupt(preempts) => ControllerFlagged(s, step);
  }

  lemma ClaimsFlagged(s: State, step: Step)
    requires Flagged(s) && (step.Filter? || step.Watchdog?)
    ensures Flagged(Next(s, step))
  {
    hide Advance, OldestFirst;
    AdvanceFlagged(s, s.filter, false, !HoldsMain(s.watchdog), !HoldsInbound(s.watchdog));
    AdvanceFlagged(s, s.watchdog, true, !HoldsMain(s.filter), !HoldsInbound(s.filter));
  }

  lemma TimerFlagged(s: State)
    requires Flagged(s)
    ensures Flagged(Next(s, Timer))
  {
    hide OldestFirst, MainFree, InboundFree;
  }

  lemma HandlerFlagged(s: State)
    requires Flagged(s)
    ensures Flagged(Next(s, Handler))
  {
    hide OldestFirst, MainFree;
    match s.handler
    case Asleep =>
    case Started =>
    case Completing(list) => if list == [] {}
  }

  lemma ControllerFlagged(s: State, step: Step)
    requires Flagged(s) && InRange(s) && (step.Retire? || step.WriteBack? || step.Interrupt?)
    ensures Flagged(Next(s, step))
  {
    hide OldestFirst;
    if step.Retire? {
      SideGrows(s.side, step.isInbound, false, ListOf(s.filter));
      SideGrows(s.side, step.isInbound, false, ListOf(s.watchdog));
    }
  }

  lemma {:induction false} RunTidy(steps: seq<Step>)
    requires ClashFree(steps)
    ensures Tidy(Run(steps)) && Flagged(Run(steps))
  {
    hide Next, Tidy, Flagged, Frozen, Fresh, InRange, Clash;
    if steps == [] {
      InitialTidy();
    } else {
      var before := steps[..|steps| - 1];
      RunTidy(before);
      RunFresh(before);
      RunFrozen(before);
      TidyStays(Run(before), steps[|steps| - 1]);
      FlaggedStays(Run(before), steps[|steps| - 1]);
    }
  }

  lemma InitialTidy()
    ensures Tidy(INITIAL) && Flagged(INITIAL)
  {
  }

  // ---------------------------------------------------------------- coming to rest

  /** The filter spins on a lock of the watchdog. */
  predicate Spins(s: State)
  {
    || (s.filter.AtMain? && HoldsMain(s.watchdog) && OldestFirst(s.side, false, s.filter.list) != [])
    || (s.filter.AtInbound? && HoldsInbound(s.watchdog) && OldestFirst(s.side, true, s.filter.list) != [])
  }

  predicate Acknowledged(c: Claim) { !c.Idle? && !Looking(c) }

  /** A step towards rest while a list is unread: some context is brought to read it. */
  function ReadPolicy(s: State): Step
  {
    if s.filter.Checked? then Filter
    else if Acknowledged(s.filter) then (if Spins(s) then Watchdog else Filter)
    else if s.filter.Idle? && s.wdh then Interrupt(false)
    else if !s.watchdog.Seen? || (!s.flag && s.pending == []) then Watchdog
    else if s.timer.TimerSignals? then Timer
    else Handler
  }

  /** A step towards rest when no list is in memory: the filter first and the handler last; a spinning
      filter waits for the watchdog. */
  function WorkPolicy(s: State): Step
  {
    if !s.filter.Idle? then (if Spins(s) then Watchdog else Filter)
    else if !s.watchdog.Idle? then Watchdog
    else if s.wdh then Interrupt(false)
    else if s.hc != [] then WriteBack
    else if !s.timer.Waiting? || s.inbound != [] then Timer
    else Handler
  }

  function Policy(s: State): Step
  {
    if Unread(s) then ReadPolicy(s)
    else if s.hcca != [] then (if s.preempted || s.filter.HasRead? then Filter else Watchdog)
    else WorkPolicy(s)
  }

  /** Accesses a claiming context has left. */
  function Left(c: Claim): nat
  {
    match c
    case Idle => 0
    case Seen => 11
    case Checked => 10
    case HasRead(list) => 9
    case HasCleared(list) => 8
    case AtMain(list) => 7
    case InMain(list) => 6
    case MainSpliced(list) => 5
    case AtInbound(list, signal) => 4
    case InInbound(list, signal) => 3
    case InboundSpliced(signal) => 2
    case MustSignal => 1
  }

  function FilterLeft(s: State): nat
  {
    Left(s.filter) + if s.wdh && !FilterClaims(s.filter) then 20 else 0
  }

  function TimerLeft(s: State): nat
  {
    (match s.timer case Waiting => 0 case Carrying(list) => 2 case TimerSignals => 1) + if s.inbound == [] then 0 else 3
  }

  function HandlerLeft(s: State): nat
  {
    (match s.handler case Asleep => 0 case Started => |s.pending| + 3 case Completing(list) => |list| + 1)
    + if s.signalled then |s.pending| + 4 else 0
  }

  /** Accesses the watchdog and the filter have left before they read an unread list. */
  function ToRead(c: Claim): nat
  {
    if c.Checked? then 1 else if c.Seen? then 2 else if c.Idle? then 3 else 3 + Left(c)
  }

  function DrainLeft(s: State): nat { HandlerLeft(s) + if s.timer.TimerSignals? then |s.pending| + 6 else 0 }

  /** What is left to do: lists the controller has, the list in memory, then the accesses of the contexts
      in the order in which they come. */
  function Rank(s: State): (nat, nat, nat, nat, nat, nat)
  {
    var hc := if s.hc == [] then 0 else 1;
    if Unread(s) then (hc, 2, ToRead(s.watchdog), ToRead(s.filter), DrainLeft(s), 0)
    else if s.hcca != [] then (hc, 1, Left(s.filter), 0, 0, 0)
    else (hc, 0, Left(s.watchdog), FilterLeft(s), TimerLeft(s), HandlerLeft(s))
  }

  /** The first of the measures that differ goes down. */
  predicate Below6(a: (nat, nat, nat, nat, nat, nat), b: (nat, nat, nat, nat, nat, nat))
  {
    a.0 < b.0 || (a.0 == b.0 && (a.1 < b.1 || (a.1 == b.1 && (a.2 < b.2 || (a.2 == b.2
      && (a.3 < b.3 || (a.3 == b.3 && (a.4 < b.4 || (a.4 == b.4 && a.5 < b.5)))))))))
  }

  /** A state from which the policy works. */
  ghost predicate Sound(s: State)
  {
    Frozen(s) && Tidy(s) && Flagged(s) && Awake(s) && !Doomed(s)
  }

  lemma SpinsTrapped(s: State)
    requires Spins(s) && !Trapped(s)
    ensures !s.preempted
  {
    hide OldestFirst;
  }

  /** What an access leaves of a context's own work. */
  lemma ClaimCloser(s: State, c: Claim, isWatchdog: bool, mainFree: bool, inboundFree: bool)
    requires !c.Idle? && (c.Seen? ==> mainFree)
    requires c.AtMain? && OldestFirst(s.side, false, c.list) != [] ==> mainFree
    requires c.AtInbound? && OldestFirst(s.side, true, c.list) != [] ==> inboundFree
    ensures var (s', c') := Advance(s, c, isWatchdog, mainFree, inboundFree);
      && Left(c') < Left(c) && s'.hc == s.hc && s'.watchdog == s.watchdog && s'.filter == s.filter
      && (Acknowledged(c) ==> ToRead(c') < ToRead(c))
      && (s'.wdh && !FilterClaims(c') && !isWatchdog && !c.Seen? ==> s.wdh && !FilterClaims(c))
  {
    hide OldestFirst;
  }

  lemma FilterReads(s: State)
    requires Sound(s) && Unread(s) && s.filter.Checked?
    ensures Below6(Rank(Next(s, Filter)), Rank(s)) && !Clash(s, Filter) && !Dooms(s, Filter)
  {
    hide OldestFirst, DrainLeft, TimerLeft, HandlerLeft, Bars;
  }

  lemma FilterMakesWay(s: State)
    requires Sound(s) && Unread(s) && Acknowledged(s.filter) && !Spins(s)
    ensures Below6(Rank(Next(s, Filter)), Rank(s)) && !Clash(s, Filter) && !Dooms(s, Filter)
  {
    hide OldestFirst, DrainLeft, TimerLeft, HandlerLeft, Advance, Bars, ToRead;
    ClaimCloser(s, s.filter, false, !HoldsMain(s.watchdog), !HoldsInbound(s.watchdog));
    AdvanceClaims(s, s.filter, false, !HoldsMain(s.watchdog), !HoldsInbound(s.watchdog));
  }

  lemma FilterEnters(s: State)
    requires Sound(s) && Unread(s) && s.filter.Idle? && s.wdh
    ensures Below6(Rank(Next(s, Interrupt(false))), Rank(s))
    ensures !Clash(s, Interrupt(false)) && !Dooms(s, Interrupt(false))
  {
    hide OldestFirst, DrainLeft, TimerLeft, HandlerLeft, Bars;
  }

  lemma WatchdogMakesWay(s: State)
    requires Sound(s) && Unread(s) && Acknowledged(s.filter) && Spins(s)
    ensures Below6(Rank(Next(s, Watchdog)), Rank(s)) && !Clash(s, Watchdog) && !Dooms(s, Watchdog)
  {
    hide OldestFirst, DrainLeft, TimerLeft, HandlerLeft, Advance, Bars, ToRead;
    SpinsTrapped(s);
    ClaimCloser(s, s.watchdog, true, !HoldsMain(s.filter), !HoldsInbound(s.filter));
    AdvanceClaims(s, s.watchdog, true, !HoldsMain(s.filter), !HoldsInbound(s.filter));
  }

  lemma WatchdogReads(s: State)
    requires Sound(s) && Unread(s) && !s.filter.Checked? && !Acknowledged(s.filter) && !(s.filter.Idle? && s.wdh)
    requires !s.watchdog.Seen? || (!s.flag && s.pending == [])
    ensures Below6(Rank(Next(s, Watchdog)), Rank(s)) && !Clash(s, Watchdog) && !Dooms(s, Watchdog)
  {
    hide OldestFirst, DrainLeft, TimerLeft, HandlerLeft, Bars;
  }

  lemma MainDrained(s: State)
    requires Sound(s) && Unread(s) && !s.filter.Checked? && !Acknowledged(s.filter) && s.watchdog.Seen?
    requires s.flag || s.pending != []
    ensures var step := if s.timer.TimerSignals? then Timer else Handler;
      Below6(Rank(Next(s, step)), Rank(s)) && !Clash(s, step) && !Dooms(s, step)
  {
    hide OldestFirst, Trapped, Lost, Twice, ToRead, Tidy, Frozen;
  }

  lemma ReadCloser(s: State)
    requires Sound(s) && Unread(s)
    ensures var step := ReadPolicy(s); Below6(Rank(Next(s, step)), Rank(s)) && !Clash(s, step) && !Dooms(s, step)
  {
    hide Sound, Unread, Below6, Rank, Next, Clash, Dooms, Spins;
    if s.filter.Checked? {
      FilterReads(s);
    } else if Acknowledged(s.filter) {
      if Spins(s) {
        WatchdogMakesWay(s);
      } else {
        FilterMakesWay(s);
      }
    } else if s.filter.Idle? && s.wdh {
      FilterEnters(s);
    } else if !s.watchdog.Seen? || (!s.flag && s.pending == []) {
      WatchdogReads(s);
    } else {
      MainDrained(s);
    }
  }

  lemma RemoveCloser(s: State)
    requires Sound(s) && !Unread(s) && s.hcca != []
    ensures var step := Policy(s); Below6(Rank(Next(s, step)), Rank(s)) && !Clash(s, step) && !Dooms(s, step)
  {
    hide OldestFirst, DrainLeft, TimerLeft, HandlerLeft, Bars;
  }

  lemma WorkByFilter(s: State)
    requires Sound(s) && s.hcca == [] && !s.filter.Idle? && !Spins(s)
    ensures Below6(Rank(Next(s, Filter)), Rank(s)) && !Clash(s, Filter) && !Dooms(s, Filter)
  {
    hide OldestFirst, TimerLeft, HandlerLeft, Advance, Bars;
    ClaimCloser(s, s.filter, false, !HoldsMain(s.watchdog), !HoldsInbound(s.watchdog));
    AdvanceClaims(s, s.filter, false, !HoldsMain(s.watchdog), !HoldsInbound(s.watchdog));
  }

  lemma WorkByWatchdog(s: State)
    requires Sound(s) && s.hcca == [] && !s.watchdog.Idle? && (s.filter.Idle? || Spins(s))
    ensures Below6(Rank(Next(s, Watchdog)), Rank(s)) && !Clash(s, Watchdog) && !Dooms(s, Watchdog)
  {
    hide OldestFirst, TimerLeft, HandlerLeft, FilterLeft, Advance, Bars;
    if Spins(s) { SpinsTrapped(s); }
    ClaimCloser(s, s.watchdog, true, !HoldsMain(s.filter), !HoldsInbound(s.filter));
    AdvanceClaims(s, s.watchdog, true, !HoldsMain(s.filter), !HoldsInbound(s.filter));
  }

  lemma WorkByController(s: State, step: Step)
    requires Sound(s) && s.hcca == [] && s.filter.Idle?
    requires step == (if s.wdh then Interrupt(false) else WriteBack) && (s.wdh || s.hc != [])
    ensures Below6(Rank(Next(s, step)), Rank(s)) && !Clash(s, step) && !Dooms(s, step)
  {
    hide OldestFirst, DrainLeft, TimerLeft, HandlerLeft, Bars;
  }

  lemma WorkByTimer(s: State)
    requires s.hcca == [] && s.filter.Idle? && s.watchdog.Idle? && (!s.timer.Waiting? || s.inbound != [])
    ensures Below6(Rank(Next(s, Timer)), Rank(s)) && !Clash(s, Timer) && !Dooms(s, Timer)
  {
    hide HandlerLeft, TimerLeft, TimerStep, Bars, OldestFirst;
    TimerFrame(s);
    TimerGoesOn(s);
  }

  lemma TimerGoesOn(s: State)
    requires MainFree(s) && InboundFree(s) && (!s.timer.Waiting? || s.inbound != [])
    ensures TimerLeft(TimerStep(s)) < TimerLeft(s)
  {
    hide MainFree, InboundFree;
  }

  lemma WorkByHandler(s: State)
    requires s.hcca == [] && s.filter.Idle? && s.watchdog.Idle? && (s.signalled || !s.handler.Asleep?)
    ensures Below6(Rank(Next(s, Handler)), Rank(s)) && !Clash(s, Handler) && !Dooms(s, Handler)
  {
    hide TimerLeft, HandlerLeft, HandlerStep, Bars, OldestFirst;
    HandlerFrame(s);
    HandlerGoesOn(s);
    assert TimerLeft(HandlerStep(s)) == TimerLeft(s) by { SameTimer(s, HandlerStep(s)); }
  }

  lemma HandlerGoesOn(s: State)
    requires MainFree(s) && (s.signalled || !s.handler.Asleep?)
    ensures HandlerLeft(HandlerStep(s)) < HandlerLeft(s)
  {
    hide MainFree;
  }

  lemma SameTimer(s: State, s': State)
    requires s.timer == s'.timer && s.inbound == s'.inbound
    ensures TimerLeft(s) == TimerLeft(s')
  {
  }

  lemma WorkCloser(s: State)
    requires Sound(s) && s.hcca == [] && !Quiescent(s)
    ensures var step := WorkPolicy(s); Below6(Rank(Next(s, step)), Rank(s)) && !Clash(s, step) && !Dooms(s, step)
  {
    hide Sound, Below6, Rank, Next, Clash, Dooms, Spins;
    if !s.filter.Idle? && !Spins(s) {
      WorkByFilter(s);
    } else if !s.filter.Idle? || !s.watchdog.Idle? {
      if Spins(s) { SpinsHeld(s); }
      WorkByWatchdog(s);
    } else if s.wdh || s.hc != [] {
      WorkByController(s, WorkPolicy(s));
    } else if !s.timer.Waiting? || s.inbound != [] {
      WorkByTimer(s);
    } else {
      WorkByHandler(s);
    }
  }

  lemma SpinsHeld(s: State)
    requires Spins(s)
    ensures !s.watchdog.Idle? && !s.filter.Idle?
  {
  }

  lemma PolicyCloser(s: State)
    requires Sound(s) && !Quiescent(s)
    ensures var step := Policy(s); Below6(Rank(Next(s, step)), Rank(s)) && !Clash(s, step) && !Dooms(s, step)
  {
    hide Sound, Below6, Rank, Next, Clash, Dooms;
    if Unread(s) {
      ReadCloser(s);
    } else if s.hcca != [] {
      RemoveCloser(s);
    } else {
      WorkCloser(s);
    }
  }

  // ---------------------------------------------------------------- exactly when rest can be reached

  /** Everything is done: no context has a step left to take, no list has been left behind, and every
      retired descriptor has been completed exactly once. */
  ghost predicate AtRest(s: State) { Quiescent(s) && AllCompleted(s) }

  predicate DoomFree(steps: seq<Step>)
  {
    steps == [] || (DoomFree(steps[..|steps| - 1]) && !Dooms(Run(steps[..|steps| - 1]), steps[|steps| - 1]))
  }

  /** As long as no list is read twice or removed unread, the contexts are doomed exactly if a step of the
      run has doomed them. */
  lemma {:induction false} DoomedSince(steps: seq<Step>)
    requires ClashFree(steps)
    ensures Doomed(Run(steps)) <==> !DoomFree(steps)
  {
    hide Next, Clash, Doomed, Dooms, InRange, Frozen, Fresh;
    if steps == [] {
      InitialNotDoomed();
    } else {
      var before := steps[..|steps| - 1];
      DoomedSince(before);
      RunFresh(before);
      RunFrozen(before);
      DoomedIff(Run(before), steps[|steps| - 1]);
    }
  }

  lemma InitialNotDoomed()
    ensures !Doomed(INITIAL)
  {
  }

  lemma {:induction false} HarmStays(steps: seq<Step>, more: seq<Step>)
    requires ClashFree(steps + more) && DoomFree(steps + more)
    ensures ClashFree(steps) && DoomFree(steps)
  {
    hide Clash, Dooms, Run;
    if more == [] {
      assert steps + more == steps;
    } else {
      assert (steps + more)[..|steps + more| - 1] == steps + more[..|more| - 1];
      HarmStays(steps, more[..|more| - 1]);
    }
  }

  lemma RestNotDoomed(s: State)
    requires Quiescent(s) && Frozen(s)
    ensures !Doomed(s)
  {
  }

  lemma RunSound(steps: seq<Step>)
    requires ClashFree(steps) && DoomFree(steps)
    ensures InRange(Run(steps)) && Sound(Run(steps))
  {
    hide Run, ClashFree, DoomFree, InRange, Frozen, Tidy, Flagged, Awake, Doomed, Fresh;
    RunFresh(steps);
    RunFrozen(steps);
    RunTidy(steps);
    AlwaysAwake(steps);
    DoomedSince(steps);
  }

  lemma RunMore(steps: seq<Step>, step: Step)
    ensures Run(steps + [step]) == Next(Run(steps), step)
    ensures ClashFree(steps) && !Clash(Run(steps), step) ==> ClashFree(steps + [step])
    ensures DoomFree(steps) && !Dooms(Run(steps), step) ==> DoomFree(steps + [step])
    ensures NonOverlapping(steps) && !Overlap(Run(steps), step) ==> NonOverlapping(steps + [step])
  {
    hide Next, Overlap, Clash, Dooms;
    assert (steps + [step])[..|steps|] == steps;
  }

  lemma PolicyNoOverlap(s: State)
    requires Orderly(s) && Sound(s)
    ensures !Overlap(s, Policy(s))
  {
    hide OldestFirst, Trapped, Spins, Flagged, Tidy, Awake;
  }

  lemma PolicyRetiresNone(s: State)
    ensures !Policy(s).Retire?
  {
    hide Spins;
  }

  /** From every state of a run without a step that clashes or dooms, the contexts can come to rest in
      finitely many further steps, every retired descriptor completed exactly once, nothing more being
      retired, and no claims overlapping if none have. */
  lemma {:induction false} CanComeToRest(steps: seq<Step>) returns (more: seq<Step>)
    requires ClashFree(steps) && DoomFree(steps)
    ensures AtRest(Run(steps + more)) && |Run(steps + more).side| == |Run(steps).side|
    ensures NonOverlapping(steps) ==> NonOverlapping(steps + more)
    decreases Rank(Run(steps)).0, Rank(Run(steps)).1, Rank(Run(steps)).2, Rank(Run(steps)).3, Rank(Run(steps)).4,
      Rank(Run(steps)).5
  {
    hide Run, Next, NonOverlapping, Overlap, ClashFree, Clash, DoomFree, Dooms, Rank, Policy, Sound, InRange, Still,
      AllCompleted, Orderly;
    var s := Run(steps);
    if Quiescent(s) {
      more := [];
      assert steps + more == steps;
      CompletedIff(steps);
    } else {
      var step := Policy(s);
      RunSound(steps);
      PolicyCloser(s);
      PolicyRetiresNone(s);
      NextLists(s, step);
      RunMore(steps, step);
      if NonOverlapping(steps) {
        NoOverlapNoClash(steps);
        PolicyNoOverlap(s);
      }
      var rest := CanComeToRest(steps + [step]);
      more := [step] + rest;
      assert steps + more == (steps + [step]) + rest;
    }
  }

  /** The contexts can still complete every retired descriptor, each exactly once, and come to rest if and
      only if no list has been read twice or removed unread, the filter has never preempted the
      watchdog where it must wait for it or reads its list again, and no list has been abandoned. */
  lemma RestReachableIff(steps: seq<Step>)
    ensures (exists more: seq<Step> :: AtRest(Run(steps + more))) <==> ClashFree(steps) && DoomFree(steps)
  {
    hide Run, ClashFree, DoomFree, Doomed, Still, AllCompleted;
    if ClashFree(steps) && DoomFree(steps) {
      var more := CanComeToRest(steps);
    } else {
      forall more: seq<Step> ensures !AtRest(Run(steps + more)) {
        if AtRest(Run(steps + more)) {
          CompletedIff(steps + more);
          RunFrozen(steps + more);
          RestNotDoomed(Run(steps + more));
          DoomedSince(steps + more);
          HarmStays(steps, more);
        }
      }
    }
  }

  /** When no claims overlap, only a filter that preempts a lock of the watchdog can keep the contexts from
      rest. */
  lemma NonOverlappingRest(steps: seq<Step>)
    requires NonOverlapping(steps)
    ensures (exists more: seq<Step> :: AtRest(Run(steps + more))) <==> TrapFree(steps)
  {
    hide Run, ClashFree, DoomFree, NonOverlapping, TrapFree, AtRest, Trapped;
    NoOverlapNoClash(steps);
    RestReachableIff(steps);
    DoomedSince(steps);
    TrappedSince(steps);
    OrderlyDoom(Run(steps));
  }

  lemma OrderlyDoom(s: State)
    requires Orderly(s)
    ensures Doomed(s) <==> Trapped(s)
  {
    hide Trapped;
  }

  // ---------------------------------------------------------------- a filter that waits for ever

  lemma RunStep(run: seq<Step>, k: nat, s: State)
    requires k < |run| && Run(run[..k]) == s
    ensures Run(run[..k + 1]) == Next(s, run[k])
    ensures NonOverlapping(run[..k]) && !Overlap(s, run[k]) ==> NonOverlapping(run[..k + 1])
    ensures ClashFree(run[..k]) && !Clash(s, run[k]) ==> ClashFree(run[..k + 1])
  {
    assert run[..k + 1][..k] == run[..k];
  }

  lemma ClashFacts()
    ensures forall s: State, step: Step :: Clash(s, step) ==>
      s.hcca != []
      && ((step.WriteBack? && !s.read && !s.wdh)
          || (step.Filter? && ((s.filter.Checked? && s.read) || (s.filter.HasRead? && !s.read)))
          || (step.Watchdog? && ((s.watchdog.Checked? && s.read) || (s.watchdog.HasRead? && !s.read))))
  {
  }

  lemma RunStart()
    ensures Run(RACE[..0]) == INITIAL && ClashFree(RACE[..0]) && NonOverlapping(RACE[..0])
    ensures Next(INITIAL, Retire(false)) == INITIAL.(side := [false], hc := [0])
    ensures Next(INITIAL.(side := [false], hc := [0]), WriteBack) == WRITTEN
  {
  }

  lemma NoneOverlap()
    ensures forall s: State :: s.filter.Idle? ==> !Overlap(s, Watchdog)
    ensures forall s: State, step: Step :: !step.Watchdog? && !step.Interrupt? ==> !Overlap(s, step)
    ensures forall s: State, b: bool :: !WatchdogClaims(s.watchdog) ==> !Overlap(s, Interrupt(b))
  {
  }

  /** One descriptor is retired and written back, and the watchdog reads the list. */
  lemma HasReadRun()
    ensures Run(RACE[..5]) == WRITTEN.(read := true, watchdog := HasRead([0]))
    ensures ClashFree(RACE[..5]) && NonOverlapping(RACE[..5])
  {
    hide Run, Next, ClashFree, Clash, NonOverlapping, Overlap;
    RunStart();
    ClashFacts();
    NoneOverlap();
    RaceNext();
    RunStep(RACE, 0, INITIAL);
    RunStep(RACE, 1, INITIAL.(side := [false], hc := [0]));
    RunStep(RACE, 2, WRITTEN);
    RunStep(RACE, 3, WRITTEN.(watchdog := Seen));
    RunStep(RACE, 4, WRITTEN.(watchdog := Checked));
  }

  /** The watchdog has taken the main lock for one retired descriptor when a second one is written back
      and the filter preempts it. */
  const BLOCKED: seq<Step> :=
    RACE[..5] + [Watchdog, Watchdog, Watchdog, Retire(false), WriteBack, Interrupt(true), Filter, Filter, Filter]

  /** The watchdog holds the main lock. */
  const LOCKED: State := WRITTEN.(read := true, hcca := [], wdh := false, watchdog := InMain([0]))

  /** The second descriptor is written back. */
  const AGAIN: State := LOCKED.(side := [false, false], read := false, hcca := [1], wdh := true)

  /** The filter spins on the watchdog's processor. */
  const SPINNING: State :=
    LOCKED.(side := [false, false], read := true, filter := AtMain([1]), preempted := true)

  lemma LockedNext()
    ensures Next(WRITTEN.(read := true, watchdog := HasRead([0])), Watchdog)
      == LOCKED.(wdh := true, watchdog := HasCleared([0]))
    ensures Next(LOCKED.(wdh := true, watchdog := HasCleared([0])), Watchdog) == LOCKED.(watchdog := AtMain([0]))
    ensures Next(LOCKED.(watchdog := AtMain([0])), Watchdog) == LOCKED
    ensures Next(Next(LOCKED, Retire(false)), WriteBack) == AGAIN
  {
  }

  lemma AgainNext()
    ensures Next(AGAIN, Interrupt(true)) == AGAIN.(filter := Checked, preempted := true)
    ensures Next(AGAIN.(filter := Checked, preempted := true), Filter)
      == AGAIN.(read := true, filter := HasRead([1]), preempted := true)
    ensures Next(AGAIN.(read := true, filter := HasRead([1]), preempted := true), Filter)
      == SPINNING.(wdh := true, filter := HasCleared([1]))
    ensures Next(SPINNING.(wdh := true, filter := HasCleared([1])), Filter) == SPINNING
  {
  }

  lemma LockedRun()
    ensures Run(BLOCKED[..8]) == LOCKED && NonOverlapping(BLOCKED[..8])
  {
    hide Run, Next, NonOverlapping, Overlap;
    assert BLOCKED[..5] == RACE[..5];
    HasReadRun();
    LockedNext();
    NoneOverlap();
    RunStep(BLOCKED, 5, WRITTEN.(read := true, watchdog := HasRead([0])));
    RunStep(BLOCKED, 6, LOCKED.(wdh := true, watchdog := HasCleared([0])));
    RunStep(BLOCKED, 7, LOCKED.(watchdog := AtMain([0])));
  }

  lemma BlockedRun()
    ensures Run(BLOCKED) == SPINNING && NonOverlapping(BLOCKED)
  {
    hide Run, Next, NonOverlapping, Overlap;
    LockedRun();
    LockedNext();
    AgainNext();
    NoneOverlap();
    RunStep(BLOCKED, 8, LOCKED);
    RunStep(BLOCKED, 9, Next(LOCKED, Retire(false)));
    RunStep(BLOCKED, 10, AGAIN);
    RunStep(BLOCKED, 11, AGAIN.(filter := Checked, preempted := true));
    RunStep(BLOCKED, 12, AGAIN.(read := true, filter := HasRead([1]), preempted := true));
    RunStep(BLOCKED, 13, SPINNING.(wdh := true, filter := HasCleared([1])));
    assert BLOCKED[..14] == BLOCKED;
  }

  lemma SpinningStands()
    ensures Next(SPINNING, Filter) == SPINNING && Next(SPINNING, Watchdog) == SPINNING && Trapped(SPINNING)
  {
  }

  /** Although no claims overlap in it, a run ends with the filter spinning on a lock of the watchdog it
      has preempted: neither can take a step, and nothing that happens later brings them to rest. */
  lemma WaitsForEver()
    ensures NonOverlapping(BLOCKED) && Next(Run(BLOCKED), Filter) == Next(Run(BLOCKED), Watchdog) == Run(BLOCKED)
    ensures forall more: seq<Step> :: !AtRest(Run(BLOCKED + more))
  {
    hide Run, Next, NonOverlapping, TrapFree, Trapped, AtRest;
    BlockedRun();
    SpinningStands();
    TrappedSince(BLOCKED);
    NonOverlappingRest(BLOCKED);
  }

  // ---------------------------------------------------------------- a list that is left behind

  /** The filter preempts the watchdog between its removal of a list and its acknowledgement, acknowledges
      itself, and returns when the next list has been written back; the watchdog acknowledges that. */
  const LEFT_BEHIND: seq<Step> :=
    [Retire(false), WriteBack, Watchdog, Watchdog, Watchdog, Watchdog, Interrupt(true), Filter, Filter, Filter,
     Retire(false), WriteBack, Filter, Filter, Watchdog, Watchdog, Watchdog, Watchdog, Watchdog, Watchdog, Handler,
     Handler, Handler, Handler]

  /** The watchdog has removed the first list. */
  const REMOVED: State := WRITTEN.(read := true, hcca := [], watchdog := HasCleared([0]))

  /** The filter has acknowledged it. */
  const ANSWERED: State := REMOVED.(wdh := false, filter := AtMain([]), preempted := true)

  /** The second list is written back and the filter has returned. */
  const SECOND: State := REMOVED.(side := [false, false], hcca := [1], read := false)

  /** The watchdog has acknowledged the second list and delivered the first. */
  const DELIVERED: State := SECOND.(wdh := false, watchdog := Idle, pending := [0], flag := true, signalled := true)

  lemma RemovedNext()
    ensures Next(WRITTEN.(read := true, watchdog := HasRead([0])), Watchdog) == REMOVED
    ensures Next(REMOVED, Interrupt(true)) == REMOVED.(filter := Checked, preempted := true)
    ensures Next(REMOVED.(filter := Checked, preempted := true), Filter)
      == REMOVED.(filter := HasRead([]), preempted := true)
    ensures Next(REMOVED.(filter := HasRead([]), preempted := true), Filter)
      == REMOVED.(filter := HasCleared([]), preempted := true)
    ensures Next(REMOVED.(filter := HasCleared([]), preempted := true), Filter) == ANSWERED
  {
  }

  lemma SecondNext()
    ensures Next(SECOND, Watchdog) == SECOND.(wdh := false, watchdog := AtMain([0]))
    ensures Next(SECOND.(wdh := false, watchdog := AtMain([0])), Watchdog)
      == SECOND.(wdh := false, watchdog := InMain([0]))
    ensures Next(SECOND.(wdh := false, watchdog := InMain([0])), Watchdog)
      == SECOND.(wdh := false, pending := [0], flag := true, watchdog := MainSpliced([0]))
  {
  }

  lemma DeliveredNext()
    ensures Next(SECOND.(wdh := false, pending := [0], flag := true, watchdog := MainSpliced([0])), Watchdog)
      == DELIVERED.(signalled := false, watchdog := AtInbound([0], true))
    ensures Next(DELIVERED.(signalled := false, watchdog := AtInbound([0], true)), Watchdog)
      == DELIVERED.(signalled := false, watchdog := MustSignal)
    ensures Next(DELIVERED.(signalled := false, watchdog := MustSignal), Watchdog) == DELIVERED
  {
  }

  lemma HandledNext()
    ensures var s := DELIVERED.(signalled := false, handler := Started);
      && Next(DELIVERED, Handler) == s
      && Next(s, Handler) == s.(pending := [], flag := false, handler := Completing([0]))
      && Next(s.(pending := [], flag := false, handler := Completing([0])), Handler)
         == s.(pending := [], flag := false, handler := Completing([]), done := [0])
      && Next(s.(pending := [], flag := false, handler := Completing([]), done := [0]), Handler)
         == SECOND.(wdh := false, watchdog := Idle, done := [0])
  {
    assert [0][1..] == [];
  }

  lemma RemovedRun()
    ensures Run(LEFT_BEHIND[..6]) == REMOVED && ClashFree(LEFT_BEHIND[..6])
  {
    hide Run, Next, ClashFree, Clash;
    assert LEFT_BEHIND[..5] == RACE[..5];
    HasReadRun();
    ClashFacts();
    RemovedNext();
    RunStep(LEFT_BEHIND, 5, WRITTEN.(read := true, watchdog := HasRead([0])));
  }

  lemma PreemptedRun()
    ensures Run(LEFT_BEHIND[..8]) == REMOVED.(filter := HasRead([]), preempted := true) && ClashFree(LEFT_BEHIND[..8])
  {
    hide Run, Next, ClashFree, Clash;
    RemovedRun();
    ClashFacts();
    RemovedNext();
    RunStep(LEFT_BEHIND, 6, REMOVED);
    RunStep(LEFT_BEHIND, 7, REMOVED.(filter := Checked, preempted := true));
  }

  lemma AnsweredRun()
    ensures Run(LEFT_BEHIND[..10]) == ANSWERED && ClashFree(LEFT_BEHIND[..10])
  {
    hide Run, Next, ClashFree, Clash;
    PreemptedRun();
    ClashFacts();
    RemovedNext();
    RunStep(LEFT_BEHIND, 8, REMOVED.(filter := HasRead([]), preempted := true));
    RunStep(LEFT_BEHIND, 9, REMOVED.(filter := HasCleared([]), preempted := true));
  }

  lemma AnsweredNext()
    ensures Next(ANSWERED, Retire(false)) == ANSWERED.(side := [false, false], hc := [1])
    ensures Next(ANSWERED.(side := [false, false], hc := [1]), WriteBack)
      == SECOND.(filter := AtMain([]), preempted := true)
    ensures Next(SECOND.(filter := AtMain([]), preempted := true), Filter)
      == SECOND.(filter := AtInbound([], false), preempted := true)
    ensures Next(SECOND.(filter := AtInbound([], false), preempted := true), Filter) == SECOND
  {
  }

  lemma SecondRun()
    ensures Run(LEFT_BEHIND[..14]) == SECOND && ClashFree(LEFT_BEHIND[..14])
  {
    hide Run, Next, ClashFree, Clash;
    AnsweredRun();
    ClashFacts();
    AnsweredNext();
    RunStep(LEFT_BEHIND, 10, ANSWERED);
    RunStep(LEFT_BEHIND, 11, ANSWERED.(side := [false, false], hc := [1]));
    RunStep(LEFT_BEHIND, 12, SECOND.(filter := AtMain([]), preempted := true));
    RunStep(LEFT_BEHIND, 13, SECOND.(filter := AtInbound([], false), preempted := true));
  }

  lemma ClearedRun()
    ensures Run(LEFT_BEHIND[..17]) == SECOND.(wdh := false, pending := [0], flag := true, watchdog := MainSpliced([0]))
    ensures ClashFree(LEFT_BEHIND[..17])
  {
    hide Run, Next, ClashFree, Clash;
    SecondRun();
    ClashFacts();
    SecondNext();
    RunStep(LEFT_BEHIND, 14, SECOND);
    RunStep(LEFT_BEHIND, 15, SECOND.(wdh := false, watchdog := AtMain([0])));
    RunStep(LEFT_BEHIND, 16, SECOND.(wdh := false, watchdog := InMain([0])));
  }

  lemma DeliveredRun()
    ensures Run(LEFT_BEHIND[..20]) == DELIVERED && ClashFree(LEFT_BEHIND[..20])
  {
    hide Run, Next, ClashFree, Clash;
    ClearedRun();
    ClashFacts();
    SecondNext();
    DeliveredNext();
    RunStep(LEFT_BEHIND, 17, SECOND.(wdh := false, pending := [0], flag := true, watchdog := MainSpliced([0])));
    RunStep(LEFT_BEHIND, 18, DELIVERED.(signalled := false, watchdog := AtInbound([0], true)));
    RunStep(LEFT_BEHIND, 19, DELIVERED.(signalled := false, watchdog := MustSignal));
  }

  lemma LeftBehindRun()
    ensures Run(LEFT_BEHIND) == SECOND.(wdh := false, watchdog := Idle, done := [0]) && ClashFree(LEFT_BEHIND)
  {
    hide Run, Next, ClashFree, Clash;
    DeliveredRun();
    ClashFacts();
    HandledNext();
    var s := DELIVERED.(signalled := false, handler := Started);
    RunStep(LEFT_BEHIND, 20, DELIVERED);
    RunStep(LEFT_BEHIND, 21, s);
    RunStep(LEFT_BEHIND, 22, s.(pending := [], flag := false, handler := Completing([0])));
    RunStep(LEFT_BEHIND, 23, s.(pending := [], flag := false, handler := Completing([]), done := [0]));
    assert LEFT_BEHIND[..24] == LEFT_BEHIND;
  }

  /** A run in which no list is read twice or removed unread, and after which no context has a step left to
      take, but one retired descriptor has not been completed; the contexts never come to rest with
      everything completed once, whatever happens later. */
  lemma LeftBehind()
    ensures ClashFree(LEFT_BEHIND) && Still(Run(LEFT_BEHIND)) && Unread(Run(LEFT_BEHIND))
    ensures |Run(LEFT_BEHIND).side| == 2 && Count(Run(LEFT_BEHIND).done, 1) == 0
    ensures forall more: seq<Step> :: !AtRest(Run(LEFT_BEHIND + more))
  {
    hide Run, ClashFree, DoomFree, AtRest;
    LeftBehindRun();
    DoomedSince(LEFT_BEHIND);
    RestReachableIff(LEFT_BEHIND);
  }
}
