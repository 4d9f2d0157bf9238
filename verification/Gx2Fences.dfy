/**
 Fence sequence numbers of user submissions: a 32-bit counter that skips zero, ordered by signed
 difference.
 */
module Gx2Fences {
  import opened Modular

  const TWO32: nat := 0x1_0000_0000
  const HALF: nat := 0x8000_0000
  const POLL_US: nat := 20

  function NextFence(seq0: nat): (fence: nat)
    ensures fence != 0
  {
    if (seq0 + 1) % TWO32 == 0 then 1 else (seq0 + 1) % TWO32
  }

  /** The fence of the k-th submission; 0 stands for none. */
  function Fence(k: nat): (fence: nat)
    ensures fence < TWO32 && (fence == 0 <==> k == 0)
  {
    if k == 0 then 0 else NextFence(Fence(k - 1))
  }

  /** Counting on by one, modulo m. */
  lemma NextRemainder(n: nat, m: nat)
    requires m > 1
    ensures (n + 1) % m == if n % m + 1 == m then 0 else n % m + 1
  {
    var r, q := n % m, n / m;
    assert n == m * q + r;
    if r + 1 < m {
      ModUnique(n + 1, q, r + 1, m);
    } else {
      ModUnique(n + 1, q + 1, 0, m);
    }
  }

  /** The fences run through 1 .. 2^32 - 1 again and again. */
  lemma {:induction false} FenceIs(k: nat)
    requires k > 0
    ensures Fence(k) == (k - 1) % (TWO32 - 1) + 1
  {
    assert Fence(k) == NextFence(Fence(k - 1));
    if k > 1 {
      hide Fence;
      FenceIs(k - 1);
      NextRemainder(k - 2, TWO32 - 1);
    }
  }

  /** The driver's test: as 32-bit numbers, observed minus wanted is not negative. */
  predicate AtOrPast(observed: nat, wanted: nat) { (observed - wanted) % TWO32 < HALF }

  /** The counter skips zero between submissions i and j. */
  predicate SkipsZero(i: nat, j: nat)
    requires 0 < i <= j
  {
    (i - 1) % (TWO32 - 1) + (j - i) >= TWO32 - 1
  }

  /** How far the fence of submission j is ahead of that of submission i. */
  function Distance(i: nat, j: nat): nat
    requires 0 < i <= j
  {
    j - i + if SkipsZero(i, j) then 1 else 0
  }

  /** The fences of two submissions within a cycle differ by their distance, and by one more when the
      counter skips zero between them. */
  lemma FenceDistance(i: nat, j: nat)
    requires 0 < i <= j < i + TWO32 - 1
    ensures (Fence(j) - Fence(i)) % TWO32 == Distance(i, j) < TWO32
  {
    hide Fence;
    var m := TWO32 - 1;
    var d := j - i;
    FenceIs(i);
    FenceIs(j);
    var r, q := (i - 1) % m, (i - 1) / m;
    assert i - 1 == m * q + r;
    if r + d < m {
      ModUnique(j - 1, q, r + d, m);
      assert Fence(j) - Fence(i) == d;
      ModUnique(d, 0, d, TWO32);
    } else {
      ModUnique(j - 1, q + 1, r + d - m, m);
      assert Fence(j) - Fence(i) == d - m;
      ModUnique(d - m, -1, d + 1, TWO32);
    }
  }

  lemma Negated(x: int)
    requires x % TWO32 != 0
    ensures (-x) % TWO32 == TWO32 - x % TWO32
  {
  }

  /** Within a cycle the test tells the later of two submissions from the earlier one if and only if
      the later fence is less than 2^31 ahead. */
  lemma OrderIff(i: nat, j: nat)
    requires 0 < i < j < i + TWO32 - 1
    ensures AtOrPast(Fence(j), Fence(i)) && !AtOrPast(Fence(i), Fence(j)) <==> Distance(i, j) < HALF
    ensures AtOrPast(Fence(j), Fence(i)) <==> Distance(i, j) < HALF
    ensures AtOrPast(Fence(i), Fence(j)) <==> Distance(i, j) > HALF
  {
    hide Fence;
    FenceDistance(i, j);
    Negated(Fence(j) - Fence(i));
  }

  /** For submissions fewer than 2^31 - 1 apart the test agrees with submission order. */
  lemma OrderAgrees(i: nat, j: nat)
    requires i > 0 && j > 0 && -(HALF - 1) < i - j < HALF - 1
    ensures AtOrPast(Fence(i), Fence(j)) <==> i >= j
  {
    hide Fence;
    if i > j {
      OrderIff(j, i);
    } else if i < j {
      OrderIff(i, j);
    }
  }

  /** With submissions retired in order, `retired` of them so far, the fence of submission k shows as
      reached exactly when that submission and so all earlier ones have retired. */
  lemma ReachedMeansRetired(k: nat, retired: nat)
    requires k > 0 && -(HALF - 1) < retired - k < HALF - 1
    ensures AtOrPast(Fence(retired), Fence(k)) <==> k <= retired
  {
    hide Fence;
    if retired == 0 {
      FenceIs(k);
      ModUnique(k - 1, 0, k - 1, TWO32 - 1);
      ModUnique(0 - k, -1, TWO32 - k, TWO32);
    } else {
      OrderAgrees(retired, k);
    }
  }

  // ---------------------------------------------------------------- waiting

  datatype Outcome = NotReady | Reached | TimedOut | StillWaiting

  /** The elapsed time, a 32-bit counter, after i polls. */
  function Elapsed(i: nat): nat { i * POLL_US % TWO32 }

  /** The first of the observations that is at or past a fence, or their number. */
  function FirstReached(observations: seq<nat>, fence: nat): (p: nat)
    ensures p <= |observations|
    ensures p < |observations| ==> AtOrPast(observations[p], fence)
    ensures forall i :: 0 <= i < p ==> !AtOrPast(observations[i], fence)
  {
    if observations == [] || AtOrPast(observations[0], fence) then 0
    else
      assert forall i :: 1 <= i < |observations| ==> observations[i] == observations[1..][i - 1];
      1 + FirstReached(observations[1..], fence)
  }

  /** Polls the fence page, which reads as the given observations, until the fence is reached or the
      elapsed time is up; StillWaiting when the observations run out first. */
  method WaitUserFence(ready: bool, fence: nat, timeoutUS: nat, observations: seq<nat>) returns (outcome: Outcome)
    requires timeoutUS < TWO32
    ensures outcome == NotReady <==> !ready
    ensures ready && fence == 0 ==> outcome == Reached
    ensures var p := FirstReached(observations, fence);
      ready && fence != 0 ==> (outcome == TimedOut <==> exists i :: 0 <= i <= p && Elapsed(i) >= timeoutUS)
    ensures var p := FirstReached(observations, fence);
      ready && fence != 0 && outcome != TimedOut ==> outcome == if p < |observations| then Reached else StillWaiting
  {
    if !ready {
      return NotReady;
    }
    if fence == 0 {
      return Reached;
    }
    var elapsed := 0;
    var i := 0;
    ghost var p := FirstReached(observations, fence);
    while elapsed < timeoutUS
      invariant 0 <= i <= p && elapsed == Elapsed(i)
      invariant forall k :: 0 <= k < i ==> Elapsed(k) < timeoutUS
      decreases |observations| - i
    {
      if i == |observations| {
        return StillWaiting;
      }
      if AtOrPast(observations[i], fence) {
        return Reached;
      }
      ElapsedMore(i);
      elapsed := (elapsed + POLL_US) % TWO32;
      i := i + 1;
    }
    outcome := TimedOut;
  }

  /** While a client waits, submissions retire in order: `retired` holds how many have at each poll. */
  ghost predicate RetiresInOrder(retired: seq<nat>, k: nat)
  {
    && (forall a, b :: 0 <= a <= b < |retired| ==> retired[a] <= retired[b])
    && (forall a :: 0 <= a < |retired| ==> -(HALF - 1) < retired[a] - k < HALF - 1)
  }

  function FencesOf(retired: seq<nat>): (observations: seq<nat>)
    ensures |observations| == |retired|
  {
    seq(|retired|, a requires 0 <= a < |retired| => Fence(retired[a]))
  }

  /** Submission k, and so each earlier one, has retired by poll p and not before. */
  ghost predicate RetiresAt(retired: seq<nat>, k: nat, p: nat)
  {
    p < |retired| && k <= retired[p] && forall a :: 0 <= a < p ==> retired[a] < k
  }

  ghost predicate InTime(p: nat, timeoutUS: nat) { forall i :: 0 <= i <= p ==> Elapsed(i) < timeoutUS }

  /** A wait for the fence of submission k reports it as reached if and only if that submission and all
      earlier ones have retired by a poll within the time allowed. */
  method WaitForSubmission(k: nat, timeoutUS: nat, retired: seq<nat>) returns (outcome: Outcome)
    requires k > 0 && timeoutUS < TWO32 && RetiresInOrder(retired, k)
    ensures outcome == Reached <==> exists p :: RetiresAt(retired, k, p) && InTime(p, timeoutUS)
    ensures outcome == StillWaiting ==> forall a :: 0 <= a < |retired| ==> retired[a] < k
    ensures outcome != NotReady
  {
    hide Fence;
    ReachedAt(retired, k);
    ghost var p := FirstReached(FencesOf(retired), Fence(k));
    outcome := WaitUserFence(true, Fence(k), timeoutUS, FencesOf(retired));
    assert RetiresAt(retired, k, p) <==> p < |retired|;
    assert forall q :: RetiresAt(retired, k, q) ==> q == p;
  }

  /** The first poll that shows the fence of submission k is the first at which it has retired. */
  lemma ReachedAt(retired: seq<nat>, k: nat)
    requires k > 0 && RetiresInOrder(retired, k)
    ensures var p := FirstReached(FencesOf(retired), Fence(k));
      && (forall a :: 0 <= a < p ==> retired[a] < k) && (forall a :: p <= a < |retired| ==> k <= retired[a])
  {
    hide Fence, AtOrPast;
    forall a | 0 <= a < |retired| ensures AtOrPast(FencesOf(retired)[a], Fence(k)) <==> k <= retired[a] {
      ReachedMeansRetired(k, retired[a]);
    }
  }

  lemma ElapsedMore(i: nat)
    ensures (Elapsed(i) + POLL_US) % TWO32 == Elapsed(i + 1)
  {
    var q := i * POLL_US / TWO32;
    assert i * POLL_US == TWO32 * q + i * POLL_US % TWO32;
    ModShift(i * POLL_US % TWO32 + POLL_US, q, TWO32);
    assert (i + 1) * POLL_US == i * POLL_US % TWO32 + POLL_US + q * TWO32;
  }

  /** A wait for a fence that is never reached gives up if and only if the timeout is at most 2^32 - 4
      microseconds: the elapsed time is always a multiple of 4 and wraps around. */
  lemma GivesUpIff(timeoutUS: nat)
    requires timeoutUS < TWO32
    ensures (exists i :: Elapsed(i) >= timeoutUS) <==> timeoutUS <= TWO32 - 4
  {
    ModUnique(858_993_459 * POLL_US, 3, TWO32 - 4, TWO32);
    assert Elapsed(858_993_459) == TWO32 - 4;
    forall i: nat ensures Elapsed(i) <= TWO32 - 4 { ElapsedIsMultiple(i); }
  }

  lemma ElapsedIsMultiple(i: nat)
    ensures Elapsed(i) % 4 == 0
  {
  }

  /** Up to the last multiple of the interval below 2^32 it gives up after as many polls as intervals
      fit into the timeout. */
  lemma GivesUpAfter(timeoutUS: nat, i: nat)
    requires timeoutUS <= 4_294_967_280 && i <= (timeoutUS + POLL_US - 1) / POLL_US
    ensures Elapsed(i) >= timeoutUS <==> i == (timeoutUS + POLL_US - 1) / POLL_US
  {
  }
}
