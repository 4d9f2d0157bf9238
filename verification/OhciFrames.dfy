/**
 The 64-bit frame number rebuilt from the controller's 16-bit one (OpenHCI 1.0a, section 7.1.4): the
 controller raises an overflow whenever bit 15 of its counter changes, the interrupt filter counts
 the ones that find the bit clear, and a reader corrects for an overflow not yet counted.

 The controller, the filter and a reader interleave at every access: the filter looks at the status,
 then counts, then acknowledges; a reader takes the controller's frame, then the driver's counter,
 then, shortly after a wrap, the status.
 */
module OhciFrames {
  import opened Modular

  const HALF: nat := 0x8000
  const WRAP: nat := 0x1_0000
  const TWO32: nat := 0x1_0000_0000
  const TWO64: nat := 0x1_0000_0000_0000_0000

  /** A reader looks for an uncounted overflow only this soon after the counter wraps. */
  const RECENT: nat := 200

  /** Where the filter stands with a frame number overflow. */
  datatype Phase = Away | Saw | Counted

  /** `now` counts all frames since the start, `high` is the driver's counter, `overflow` the status bit
      and `lag` the frames since it was raised. */
  datatype Counter = Counter(now: nat, high: nat, overflow: bool, lag: nat, phase: Phase)

  datatype Step = Tick | Filter

  const START := Counter(0, 0, false, 0, Away)

  function FrameRegister(c: Counter): (hc: nat)
    ensures hc < WRAP
  {
    c.now % WRAP
  }

  function Next(c: Counter, step: Step): Counter
  {
    match step
    case Tick =>
      c.(now := c.now + 1, overflow := c.overflow || (c.now + 1) % HALF == 0,
         lag := if c.overflow then c.lag + 1 else 0)
    case Filter =>
      match c.phase
      case Away => if c.overflow then c.(phase := Saw) else c
      case Saw => c.(high := if FrameRegister(c) < HALF then (c.high + WRAP) % TWO64 else c.high, phase := Counted)
      case Counted => c.(overflow := false, lag := 0, phase := Away)
  }

  function Run(steps: seq<Step>): Counter
  {
    if steps == [] then START else Next(Run(steps[..|steps| - 1]), steps[|steps| - 1])
  }

  /** Each overflow is acknowledged within fewer than `bound` frames. */
  predicate Prompt(steps: seq<Step>, bound: nat)
  {
    (var c := Run(steps); c.overflow ==> c.lag < bound)
    && (steps == [] || Prompt(steps[..|steps| - 1], bound))
  }

  /** The counter has wrapped and the filter has not counted it yet. */
  predicate Uncounted(c: Counter)
  {
    c.overflow && FrameRegister(c) < HALF && !c.phase.Counted?
  }

  /** The driver's counter holds the frame number's high part, less a wrap not yet counted. */
  ghost predicate Tracks(c: Counter)
  {
    && c.high == (c.now - FrameRegister(c) - (if Uncounted(c) then WRAP else 0)) % TWO64
    && (c.overflow ==> c.lag == c.now % HALF && c.now >= HALF)
    && (!c.overflow ==> c.phase.Away?)
  }

  lemma Registers(c: Counter)
    ensures FrameRegister(c) < HALF ==> c.now % HALF == FrameRegister(c)
    ensures FrameRegister(c) >= HALF ==> c.now % HALF == FrameRegister(c) - HALF
    ensures (c.now + 1) % HALF == 0 <==> FrameRegister(c) + 1 == HALF || FrameRegister(c) + 1 == WRAP
    ensures (c.now + 1) % WRAP == if FrameRegister(c) + 1 == WRAP then 0 else FrameRegister(c) + 1
    ensures (c.now + 1) % HALF == if (c.now + 1) % HALF == 0 then 0 else c.now % HALF + 1
  {
  }

  /** Adding to a number reduced modulo 2^64. */
  lemma AddReduced(x: int, d: int, m: nat)
    requires m > 0
    ensures (x % m + d) % m == (x + d) % m
  {
    ModShift(x + d, 0 - x / m, m);
    assert x % m + d == x + d + (0 - x / m) * m;
  }

  lemma TrackStays(c: Counter, step: Step)
    requires Tracks(c) && (var c' := Next(c, step); c'.overflow ==> c'.lag < HALF)
    ensures Tracks(Next(c, step))
  {
    Registers(c);
    var r := FrameRegister(c);
    if step.Filter? && c.phase.Saw? && r < HALF {
      AddReduced(c.now - r - WRAP, WRAP, TWO64);
    }
  }

  /** While each overflow is acknowledged before the next one is raised, no wrap is lost. */
  lemma {:induction false} PromptTracks(steps: seq<Step>)
    requires Prompt(steps, HALF)
    ensures Tracks(Run(steps))
  {
    if steps != [] {
      PromptTracks(steps[..|steps| - 1]);
      TrackStays(Run(steps[..|steps| - 1]), steps[|steps| - 1]);
    }
  }

  lemma {:induction false} PromptEarlier(steps: seq<Step>, bound: nat, looser: nat)
    requires Prompt(steps, bound) && bound <= looser
    ensures Prompt(steps, looser)
  {
    if steps != [] { PromptEarlier(steps[..|steps| - 1], bound, looser); }
  }

  lemma {:induction false} TimeAdvances(steps: seq<Step>, i: nat, j: nat)
    requires i <= j <= |steps|
    ensures Run(steps[..i]).now <= Run(steps[..j]).now <= Run(steps[..i]).now + (j - i)
  {
    if i < j {
      assert steps[..j][..j - 1] == steps[..j - 1];
      TimeAdvances(steps, i, j - 1);
    }
  }

  lemma {:induction false} PromptBefore(steps: seq<Step>, i: nat, bound: nat)
    requires Prompt(steps, bound) && i <= |steps|
    ensures Prompt(steps[..i], bound)
    decreases |steps|
  {
    if i == |steps| {
      assert steps[..i] == steps;
    } else {
      assert steps[..|steps| - 1][..i] == steps[..i];
      PromptBefore(steps[..|steps| - 1], i, bound);
    }
  }

  // ---------------------------------------------------------------- reading the frame number

  /** The states a reader finds at its three accesses. */
  datatype Read = Read(atFrame: Counter, atCounter: Counter, atStatus: Counter)

  /** A read whose accesses come after i, j and k steps of a run; the controller and the filter go on
      between them. */
  function ReadAt(steps: seq<Step>, i: nat, j: nat, k: nat): Read
    requires i <= j <= k <= |steps|
  {
    Read(Run(steps[..i]), Run(steps[..j]), Run(steps[..k]))
  }

  predicate Corrects(r: Read) { FrameRegister(r.atFrame) < RECENT && r.atStatus.overflow }

  /** The result of GetFrameNumber. */
  function FrameNumber(r: Read): nat
  {
    var full := (r.atCounter.high + FrameRegister(r.atFrame)) % TWO64;
    if Corrects(r) then (full + WRAP) % TWO64 else full
  }

  /** The result of GetFrameNumber32. */
  function FrameNumber32(r: Read): nat
  {
    var half := (r.atCounter.high % TWO32 + FrameRegister(r.atFrame)) % TWO32;
    if Corrects(r) then (half + WRAP) % TWO32 else half
  }

  /** By how many wraps a read misses the frame at which it started: too many for each wrap between its
      first two accesses and for a correction, too few for a wrap the counter lacked. */
  function Error(r: Read): int
  {
    r.atCounter.now / WRAP - r.atFrame.now / WRAP
    - (if Uncounted(r.atCounter) then 1 else 0) + if Corrects(r) then 1 else 0
  }

  /** However the controller and the filter interleave with a read, its result is the frame at which it
      started plus its error. */
  lemma FrameNumberIs(r: Read)
    requires Tracks(r.atCounter)
    ensures FrameNumber(r) == (r.atFrame.now + WRAP * Error(r)) % TWO64
  {
    hide Corrects, Uncounted;
    var hc, n := FrameRegister(r.atFrame), r.atCounter.now;
    var x := n - FrameRegister(r.atCounter) - if Uncounted(r.atCounter) then WRAP else 0;
    CounterIs(r.atCounter);
    assert n == WRAP * (n / WRAP) + n % WRAP && r.atFrame.now == WRAP * (r.atFrame.now / WRAP) + hc;
    AddReduced(x, hc, TWO64);
    AddReduced(x + hc, WRAP, TWO64);
  }

  lemma CounterIs(c: Counter)
    requires Tracks(c)
    ensures c.high == (c.now - FrameRegister(c) - if Uncounted(c) then WRAP else 0) % TWO64
  {
  }

  /** While each overflow is acknowledged before the next one is raised, a read of any length is exact
      if and only if the wraps it adds and lacks cancel out. */
  lemma ExactIff(steps: seq<Step>, i: nat, j: nat, k: nat)
    requires Prompt(steps, HALF) && i <= j <= k <= |steps| < TWO64 - 2 * WRAP
    ensures var r := ReadAt(steps, i, j, k); FrameNumber(r) == r.atFrame.now % TWO64 <==> Error(r) == 0
  {
    hide Run, Prompt, FrameNumber, Tracks;
    var r := ReadAt(steps, i, j, k);
    PromptBefore(steps, j, HALF);
    PromptTracks(steps[..j]);
    FrameNumberIs(r);
    TimeAdvances(steps, i, j);
    var n, m := r.atFrame.now, r.atCounter.now;
    assert n == WRAP * (n / WRAP) + n % WRAP && m == WRAP * (m / WRAP) + m % WRAP;
    if Error(r) < 0 {
      ModGap(n + WRAP * Error(r), 0 - WRAP * Error(r), TWO64);
    } else if Error(r) > 0 {
      ModGap(n, WRAP * Error(r), TWO64);
    }
  }

  /** The 32-bit frame number is the 64-bit one modulo 2^32, however the read was interrupted. */
  lemma FrameNumber32Agrees(r: Read)
    ensures FrameNumber32(r) == FrameNumber(r) % TWO32
  {
    var high, hc := r.atCounter.high, FrameRegister(r.atFrame);
    AddReduced(high, hc, TWO32);
    Mod64To32(high + hc);
    Mod64To32((high + hc) % TWO64 + WRAP);
    AddReduced((high + hc) % TWO64, WRAP, TWO32);
  }

  lemma Mod64To32(x: nat)
    ensures x % TWO64 % TWO32 == x % TWO32
  {
  }

  // ---------------------------------------------------------------- when a read is exact

  /** The read takes less time than from the end of the 200 frames after a wrap to the next overflow. */
  predicate Short(r: Read)
  {
    r.atFrame.now <= r.atCounter.now <= r.atStatus.now < r.atFrame.now + (HALF - RECENT)
  }

  /** The counter wraps after the reader has taken the controller's frame, before it takes the driver's
      counter. */
  predicate Wraps(r: Read) { r.atFrame.now / WRAP < r.atCounter.now / WRAP }

  /** The reader adds a wrap to a counter that has it already: the filter counted a wrap that the frame
      did not show, or it had counted but not acknowledged the one that the frame did show. */
  predicate Ahead(r: Read) { !Uncounted(r.atCounter) && (Wraps(r) || Corrects(r)) }

  /** The filter counts a wrap after the reader has taken the counter and acknowledges it before the
      reader takes the status. */
  predicate Behind(r: Read) { Uncounted(r.atCounter) && !Wraps(r) && !r.atStatus.overflow }

  /** All facts about a read in a run that acknowledges overflows within fewer than 200 frames. */
  ghost predicate Sound(r: Read)
  {
    && Tracks(r.atFrame) && Tracks(r.atCounter) && Tracks(r.atStatus)
    && (r.atFrame.overflow ==> r.atFrame.lag < RECENT) && (r.atCounter.overflow ==> r.atCounter.lag < RECENT)
    && (r.atStatus.overflow ==> r.atStatus.lag < RECENT)
  }

  lemma ReadSound(steps: seq<Step>, i: nat, j: nat, k: nat)
    requires Prompt(steps, RECENT) && i <= j <= k <= |steps|
    ensures Sound(ReadAt(steps, i, j, k))
    ensures var r := ReadAt(steps, i, j, k); r.atFrame.now <= r.atCounter.now <= r.atStatus.now
  {
    hide Tracks, Run;
    PromptState(steps, i);
    PromptState(steps, j);
    PromptState(steps, k);
    TimeAdvances(steps, i, j);
    TimeAdvances(steps, j, k);
  }

  lemma PromptState(steps: seq<Step>, i: nat)
    requires Prompt(steps, RECENT) && i <= |steps|
    ensures Tracks(Run(steps[..i])) && (Run(steps[..i]).overflow ==> Run(steps[..i]).lag < RECENT)
  {
    hide Tracks, Run;
    PromptBefore(steps, i, RECENT);
    PromptEarlier(steps[..i], RECENT, HALF);
    PromptTracks(steps[..i]);
  }

  /** The error of a short read. */
  lemma ErrorIs(r: Read)
    requires Sound(r) && Short(r)
    ensures Error(r) == if Ahead(r) then 1 else if Behind(r) then -1 else 0
    ensures Behind(r) ==> r.atFrame.now >= WRAP
  {
    Registers(r.atFrame);
    Registers(r.atCounter);
    Registers(r.atStatus);
    WrapsOnce(r.atFrame.now, r.atCounter.now);
  }

  lemma WrapsOnce(n: nat, m: nat)
    requires n <= m < n + HALF
    ensures (m / WRAP == n / WRAP && m % WRAP == n % WRAP + (m - n))
      || (m / WRAP == n / WRAP + 1 && n % WRAP + (m - n) == m % WRAP + WRAP)
  {
  }

  lemma Apart(n: nat, d: nat)
    requires 0 < d < TWO64
    ensures (n - d) % TWO64 != n % TWO64 && (n + d) % TWO64 != n % TWO64
  {
    ModGap(n - d, d, TWO64);
    ModGap(n, d, TWO64);
  }

  /** With every overflow acknowledged within fewer than 200 frames, and whatever else happens between
      its accesses, a read is one wrap ahead, one wrap behind, or exact, each exactly on its condition. */
  lemma SplitReadIff(steps: seq<Step>, i: nat, j: nat, k: nat)
    requires Prompt(steps, RECENT) && i <= j <= k <= |steps| && Short(ReadAt(steps, i, j, k))
    ensures var r := ReadAt(steps, i, j, k); var n := r.atFrame.now;
      && (FrameNumber(r) == (n + WRAP) % TWO64 <==> Ahead(r))
      && (FrameNumber(r) == (n - WRAP) % TWO64 <==> Behind(r))
      && (FrameNumber(r) == n % TWO64 <==> !Ahead(r) && !Behind(r))
  {
    hide FrameNumber, Run, Prompt, Ahead, Behind, Error, Tracks, Short;
    var r := ReadAt(steps, i, j, k);
    ReadSound(steps, i, j, k);
    ErrorIs(r);
    FrameNumberIs(r);
    var n := r.atFrame.now;
    Apart(n, WRAP);
    Apart(n, 2 * WRAP);
    Apart(n + WRAP, 2 * WRAP);
    NotBoth(r);
  }

  lemma NotBoth(r: Read)
    ensures !(Ahead(r) && Behind(r))
  {
  }

  /** A read during which the filter does nothing, and that does not start between its counting and its
      acknowledging, is exact. */
  lemma FrameNumberExact(steps: seq<Step>, i: nat, j: nat, k: nat)
    requires Prompt(steps, RECENT) && i <= j <= k <= |steps| && Short(ReadAt(steps, i, j, k))
    requires forall a :: i <= a < k ==> steps[a].Tick?
    requires !Run(steps[..i]).phase.Counted?
    ensures FrameNumber(ReadAt(steps, i, j, k)) == Run(steps[..i]).now % TWO64
  {
    hide FrameNumber, Run, Prompt, Short;
    SplitReadIff(steps, i, j, k);
    ReadSound(steps, i, j, k);
    OnlyTicks(steps, i, j);
    OnlyTicks(steps, j, k);
    UndisturbedRead(ReadAt(steps, i, j, k));
  }

  lemma UndisturbedRead(r: Read)
    requires Sound(r) && Short(r) && r.atFrame.phase == r.atCounter.phase == r.atStatus.phase
      && !r.atFrame.phase.Counted?
    requires r.atFrame.overflow ==> r.atCounter.overflow
    requires r.atCounter.overflow ==> r.atStatus.overflow
    requires !r.atFrame.overflow ==> (r.atCounter.overflow <==> r.atCounter.now / HALF > r.atFrame.now / HALF)
    requires !r.atCounter.overflow ==> (r.atStatus.overflow <==> r.atStatus.now / HALF > r.atCounter.now / HALF)
    ensures !Ahead(r) && !Behind(r)
  {
    Registers(r.atFrame);
    Registers(r.atCounter);
    Registers(r.atStatus);
    WrapsOnce(r.atFrame.now, r.atCounter.now);
    WrapsOnce(r.atCounter.now, r.atStatus.now);
  }

  /** Without the filter an overflow, once raised, stays, and the counter is left alone. */
  lemma {:induction false} OnlyTicks(steps: seq<Step>, i: nat, j: nat)
    requires i <= j <= |steps| && forall a :: i <= a < j ==> steps[a].Tick?
    ensures var c, c' := Run(steps[..i]), Run(steps[..j]);
      && c'.phase == c.phase && c'.high == c.high && c'.now == c.now + (j - i)
      && (c.overflow ==> c'.overflow) && (!c.overflow ==> (c'.overflow <==> c'.now / HALF > c.now / HALF))
  {
    if i < j {
      assert steps[..j][..j - 1] == steps[..j - 1];
      OnlyTicks(steps, i, j - 1);
    }
  }

  // ---------------------------------------------------------------- reads in order

  /** Of two reads the later one returns less if and only if it starts fewer frames later than its
      error is below the earlier one's. */
  lemma DecreasesIff(steps: seq<Step>, i: nat, j: nat, k: nat, i': nat, j': nat, k': nat)
    requires Prompt(steps, RECENT) && |steps| + WRAP < TWO64
    requires i <= j <= k <= |steps| && i <= i' <= j' <= k' <= |steps|
    requires Short(ReadAt(steps, i, j, k)) && Short(ReadAt(steps, i', j', k'))
    ensures var r, r' := ReadAt(steps, i, j, k), ReadAt(steps, i', j', k');
      FrameNumber(r') < FrameNumber(r) <==> r'.atFrame.now - r.atFrame.now < WRAP * (Error(r) - Error(r'))
  {
    hide FrameNumber, Run, Prompt, Ahead, Error, Short;
    NumberOf(steps, i, j, k);
    NumberOf(steps, i', j', k');
  }

  lemma NumberOf(steps: seq<Step>, i: nat, j: nat, k: nat)
    requires Prompt(steps, RECENT) && i <= j <= k <= |steps| && |steps| + WRAP < TWO64
    requires Short(ReadAt(steps, i, j, k))
    ensures var r := ReadAt(steps, i, j, k); FrameNumber(r) == r.atFrame.now + WRAP * Error(r)
  {
    hide FrameNumber, Run, Prompt, Ahead, Behind, Error, Tracks, Short;
    var r := ReadAt(steps, i, j, k);
    ReadSound(steps, i, j, k);
    ErrorIs(r);
    FrameNumberIs(r);
    TimeAdvances(steps, 0, i);
    StartsAtZero(steps);
    var x := r.atFrame.now + WRAP * Error(r);
    ModUnique(x, 0, x, TWO64);
  }

  lemma StartsAtZero(steps: seq<Step>)
    ensures Run(steps[..0]).now == 0
  {
  }

  /** The frame number never decreases from a read that is not ahead to one that is not behind. */
  lemma NeverDecreases(steps: seq<Step>, i: nat, j: nat, k: nat, i': nat, j': nat, k': nat)
    requires Prompt(steps, RECENT) && |steps| + WRAP < TWO64
    requires i <= j <= k <= |steps| && i <= i' <= j' <= k' <= |steps|
    requires Short(ReadAt(steps, i, j, k)) && Short(ReadAt(steps, i', j', k'))
    requires !Ahead(ReadAt(steps, i, j, k)) && !Behind(ReadAt(steps, i', j', k'))
    ensures FrameNumber(ReadAt(steps, i, j, k)) <= FrameNumber(ReadAt(steps, i', j', k'))
  {
    hide FrameNumber, Run, Prompt, Ahead, Behind, Error, Tracks, Short;
    DecreasesIff(steps, i, j, k, i', j', k');
    ReadSound(steps, i, j, k);
    ReadSound(steps, i', j', k');
    ErrorIs(ReadAt(steps, i, j, k));
    ErrorIs(ReadAt(steps, i', j', k'));
    TimeAdvances(steps, i, i');
  }

  // ---------------------------------------------------------------- reads that miss

  function Ticks(n: nat): seq<Step> { seq(n, i => Tick) }

  lemma Then(steps: seq<Step>, step: Step)
    ensures Run(steps + [step]) == Next(Run(steps), step)
    ensures Prompt(steps, RECENT) && (var c := Next(Run(steps), step); c.overflow ==> c.lag < RECENT) ==>
      Prompt(steps + [step], RECENT)
  {
    assert (steps + [step])[..|steps|] == steps;
  }

  /** Frames that raise no overflow. */
  lemma {:induction false} QuietFrames(steps: seq<Step>, n: nat)
    requires var c := Run(steps); !c.overflow && c.now % HALF + n < HALF
    ensures Run(steps + Ticks(n)) == Run(steps).(now := Run(steps).now + n, lag := if n == 0 then Run(steps).lag else 0)
    ensures Prompt(steps, RECENT) ==> Prompt(steps + Ticks(n), RECENT)
  {
    hide Run, Prompt;
    if n == 0 {
      assert steps + Ticks(0) == steps;
    } else {
      QuietFrames(steps, n - 1);
      assert steps + Ticks(n) == steps + Ticks(n - 1) + [Tick];
      Then(steps + Ticks(n - 1), Tick);
      SameHalf(Run(steps).now, n);
    }
  }

  lemma SameHalf(now: nat, n: nat)
    requires 0 < n && now % HALF + n < HALF
    ensures (now + n) % HALF == now % HALF + n
  {
    ModUnique(now + n, now / HALF, now % HALF + n, HALF);
  }

  /** The frames up to the first overflow, its service, the frames up to the wrap, the wrap and its
      service. */
  const TO_HALF: seq<Step> := Ticks(HALF - 1) + [Tick]
  const TO_WRAP: seq<Step> := TO_HALF + [Filter] + [Filter] + [Filter] + Ticks(HALF - 1)
  const THROUGH: seq<Step> := TO_WRAP + [Tick] + [Filter] + [Filter] + [Filter]

  /** The steps up to the wrap. */
  const W: nat := WRAP + 2

  lemma FirstOverflow()
    ensures Run(TO_HALF) == Counter(HALF, 0, true, 0, Away) && Prompt(TO_HALF, RECENT)
  {
    assert Run([]) == START;
    QuietFrames([], HALF - 1);
    assert [] + Ticks(HALF - 1) == Ticks(HALF - 1);
    Then(Ticks(HALF - 1), Tick);
  }

  lemma BeforeWrap()
    ensures Run(TO_WRAP) == Counter(WRAP - 1, 0, false, 0, Away) && Prompt(TO_WRAP, RECENT) && |TO_WRAP| == W
  {
    hide Run, Prompt, Ticks;
    FirstOverflow();
    Then(TO_HALF, Filter);
    Then(TO_HALF + [Filter], Filter);
    Then(TO_HALF + [Filter] + [Filter], Filter);
    QuietFrames(TO_HALF + [Filter] + [Filter] + [Filter], HALF - 1);
    TicksLength(HALF - 1);
  }

  lemma TicksLength(n: nat)
    ensures |Ticks(n)| == n
  {
  }

  lemma ThroughWrap()
    ensures Prompt(THROUGH, RECENT) && |THROUGH| == W + 4
    ensures Run(THROUGH[..W]) == Counter(WRAP - 1, 0, false, 0, Away)
    ensures Run(THROUGH[..W + 1]) == Counter(WRAP, 0, true, 0, Away)
    ensures Run(THROUGH[..W + 3]) == Counter(WRAP, WRAP, true, 0, Counted)
    ensures Run(THROUGH[..W + 4]) == Counter(WRAP, WRAP, false, 0, Away)
  {
    hide Run, Prompt;
    BeforeWrap();
    var s1 := TO_WRAP + [Tick];
    var s2 := s1 + [Filter];
    var s3 := s2 + [Filter];
    Then(TO_WRAP, Tick);
    Then(s1, Filter);
    Then(s2, Filter);
    Then(s3, Filter);
    assert THROUGH[..W] == TO_WRAP && THROUGH[..W + 1] == s1 && THROUGH[..W + 3] == s3 && THROUGH[..W + 4] == THROUGH;
  }

  /** Around one wrap, promptly serviced: a read that takes the frame before the wrap and the counter
      after it was counted, and one that falls between counting and acknowledging, are ahead; one that
      takes the counter before and the status after the service is behind; and a read after the
      first of these returns less than it did. */
  lemma ReadsMiss()
    ensures Prompt(THROUGH, RECENT) && |THROUGH| == W + 4
    ensures FrameNumber(ReadAt(THROUGH, W, W + 3, W + 3)) == WRAP - 1 + WRAP
    ensures FrameNumber(ReadAt(THROUGH, W + 3, W + 3, W + 3)) == WRAP + WRAP
    ensures FrameNumber(ReadAt(THROUGH, W + 1, W + 1, W + 4)) == WRAP - WRAP
    ensures FrameNumber(ReadAt(THROUGH, W + 4, W + 4, W + 4)) == WRAP
  {
    hide Run, Prompt;
    ThroughWrap();
  }

  // ---------------------------------------------------------------- the driver's fields

  class FrameCounter {
    var frameNumber: nat
    var hccaFrameNumber: nat
    var overflowStatus: bool
    /** How far the filter is with an overflow. */
    var phase: Phase
    /** All accesses of the controller and the filter so far. */
    ghost var steps: seq<Step>

    ghost predicate Valid()
      reads this
    {
      var c := Run(steps);
      frameNumber == c.high && hccaFrameNumber == FrameRegister(c) && overflowStatus == c.overflow && phase == c.phase
    }

    constructor ()
      ensures Valid() && steps == []
    {
      frameNumber, hccaFrameNumber, overflowStatus, phase, steps := 0, 0, false, Away, [];
    }

    /** The controller starts a frame. */
    method StartFrame()
      requires Valid()
      modifies this
      ensures Valid() && steps == old(steps) + [Tick]
    {
      Registers(Run(steps));
      Then(steps, Tick);
      hccaFrameNumber := if hccaFrameNumber + 1 == WRAP then 0 else hccaFrameNumber + 1;
      if hccaFrameNumber % HALF == 0 {
        overflowStatus := true;
      }
      steps := steps + [Tick];
    }

    /** The next access of the filter to a frame number overflow. */
    method FilterOverflow()
      requires Valid()
      modifies this
      ensures Valid() && steps == old(steps) + [Filter]
    {
      Then(steps, Filter);
      match phase {
        case Away =>
          if overflowStatus {
            phase := Saw;
          }
        case Saw =>
          if hccaFrameNumber < HALF {
            frameNumber := (frameNumber + WRAP) % TWO64;
          }
          phase := Counted;
        case Counted =>
          overflowStatus, phase := false, Away;
      }
      steps := steps + [Filter];
    }

    /** The controller and the filter may go on at any time, any number of times. */
    method Meanwhile()
      requires Valid()
      modifies this
      ensures Valid() && old(steps) <= steps
    {
      var n: nat :| n >= 0;
      for k := 0 to n
        invariant Valid() && old(steps) <= steps
      {
        var frame: bool := *;
        if frame {
          StartFrame();
        } else {
          FilterOverflow();
        }
      }
    }

    method GetFrameNumber() returns (number: nat, ghost j: nat)
      requires Valid()
      modifies this
      ensures Valid() && old(steps) <= steps && |old(steps)| <= j <= |steps|
      ensures number == FrameNumber(ReadAt(steps, |old(steps)|, j, |steps|))
    {
      hide Run, FrameRegister;
      var hcFrameNumber := hccaFrameNumber;
      Meanwhile();
      j := |steps|;
      ghost var read := steps;
      number := (frameNumber + hcFrameNumber) % TWO64;
      Meanwhile();
      if hcFrameNumber < RECENT {
        if overflowStatus {
          number := (number + WRAP) % TWO64;
        }
      }
      assert steps[..|old(steps)|] == old(steps) && steps[..j] == read && steps[..|steps|] == steps;
    }

    method GetFrameNumber32() returns (number: nat, ghost j: nat)
      requires Valid()
      modifies this
      ensures Valid() && old(steps) <= steps && |old(steps)| <= j <= |steps|
      ensures number == FrameNumber(ReadAt(steps, |old(steps)|, j, |steps|)) % TWO32
    {
      hide Run, FrameRegister;
      var hcFrameNumber := hccaFrameNumber;
      Meanwhile();
      j := |steps|;
      ghost var read := steps;
      number := (frameNumber % TWO32 + hcFrameNumber) % TWO32;
      Meanwhile();
      if hcFrameNumber < RECENT {
        if overflowStatus {
          number := (number + WRAP) % TWO32;
        }
      }
      assert steps[..|old(steps)|] == old(steps) && steps[..j] == read && steps[..|steps|] == steps;
      FrameNumber32Agrees(ReadAt(steps, |old(steps)|, j, |steps|));
    }
  }
}
