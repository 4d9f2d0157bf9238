/**
 The stores of a submission, one word at a time, while the controller is at work on the same queue.  The
 first descriptor is written over the dummy that the controller waits at, and each descriptor's token,
 which makes it active, is stored before its buffer pointers.  A queue that was empty is restarted at its
 front afterwards, wherever the controller has come to by then.
 */
module EhciStores {
  import opened Chains
  import opened EhciTransfers
  import opened EhciLayout
  import opened EhciUpdates
  import opened EhciOverlay
  import opened EhciSchedule

  /** The cells of a submission, its new dummy, what is to be in the cells, and how many descriptors queued
      before the controller has yet to fetch. */
  datatype Job = Job(xs: seq<Transfer>, c: seq<int>, dummy: int, final: seq<Transfer>, ahead: nat)

  /** A descriptor is cleared, then gets its two links, its token and five buffer pointers. */
  const STORES: nat := 9
  const TOKEN_STORED: nat := 4

  /** The controller fetches the next descriptor, or retires the k-th of the submission with a token. */
  datatype Step = Store | Fetch | Retire(k: nat, token: nat)

  /** `taken` are the descriptors of the submission that the controller has fetched, as it found them. */
  datatype State = State(xs: seq<Transfer>, link: nat, ahead: nat, stored: nat, taken: seq<Overlay>)

  ghost predicate JobOk(job: Job)
  {
    && job.c != [] && |job.final| == |job.c| && NoDup(job.c) && job.dummy !in job.c && 0 <= job.dummy < |job.xs|
    && !Active(job.xs[job.dummy].token)
    && forall k :: 0 <= k < |job.c| ==>
         (0 <= job.c[k] < |job.xs| && !Active(job.xs[job.c[k]].token)
          && Active(job.final[k].token) && |job.final[k].buffer| == 5 && job.final[k].altNextQTD == TERMINATE
          && job.final[k].nextQTD == QtdPhys(Walk(job, k + 1)))
  }

  /** The k-th cell along the new links. */
  function Walk(job: Job, k: nat): (x: int)
  {
    if k < |job.c| && job.c[k] >= NIL then job.c[k] else if job.dummy >= NIL then job.dummy else NIL
  }

  function Start(job: Job): State { State(job.xs, QtdPhys(Walk(job, 0)), job.ahead, 0, []) }

  /** The w-th store into a descriptor. */
  function Word(x: Transfer, final: Transfer, w: nat): Transfer
  {
    match w
    case 0 => x.(nextQTD := 0, altNextQTD := TERMINATE, token := 0, buffer := NO_BUFFERS)
    case 1 => x.(nextQTD := final.nextQTD)
    case 2 => x.(altNextQTD := final.altNextQTD)
    case 3 => x.(token := final.token)
    case _ =>
      if w - TOKEN_STORED < |x.buffer| && w - TOKEN_STORED < |final.buffer|
      then x.(buffer := x.buffer[w - TOKEN_STORED := final.buffer[w - TOKEN_STORED]])
      else x
  }

  function Next(job: Job, s: State, step: Step): State
  {
    match step
    case Store =>
      var k := s.stored / STORES;
      if k < |job.c| && k < |job.final| && 0 <= job.c[k] < |s.xs| then
        var x := job.c[k];
        s.(xs := s.xs[x := Word(s.xs[x], job.final[k], s.stored % STORES)], stored := s.stored + 1)
      else s
    case Fetch =>
      var x := QtdAt(s.link);
      if s.ahead > 0 then s.(ahead := s.ahead - 1)
      else if 0 <= x < |s.xs| && Active(s.xs[x].token) then
        s.(link := s.xs[x].nextQTD, taken := s.taken + [Found(s.link, s.xs[x])])
      else s
    case Retire(k, token) =>
      if Retires(job, s, step) then
        var x := job.c[k]; s.(xs := s.xs[x := s.xs[x].(token := token)])
      else s
  }

  /** The step retires a descriptor that the controller has taken. */
  predicate Retires(job: Job, s: State, step: Step)
  {
    && step.Retire? && step.k < |s.taken| && step.k < |job.c| && 0 <= job.c[step.k] < |s.xs|
    && Active(s.xs[job.c[step.k]].token) && !Active(step.token)
  }

  /** What the controller takes into the overlay from a descriptor. */
  function Found(link: nat, x: Transfer): Overlay { Overlay(link, x.nextQTD, x.altNextQTD, x.token, x.buffer) }

  function Run(job: Job, steps: seq<Step>): State
  {
    if steps == [] then Start(job) else Next(job, Run(job, steps[..|steps| - 1]), steps[|steps| - 1])
  }

  // ---------------------------------------------------------------- every run

  /** How many of the stores into the k-th descriptor have been made. */
  function Made(stored: nat, k: nat): nat
  {
    if stored <= k * STORES then 0 else if stored >= (k + 1) * STORES then STORES else stored - k * STORES
  }

  /** A descriptor after n of its stores. */
  function Partial(x: Transfer, final: Transfer, n: nat): Transfer
    requires |final.buffer| == 5
  {
    if n == 0 then x
    else x.(nextQTD := if n >= 2 then final.nextQTD else 0, altNextQTD := TERMINATE,
            token := if n >= TOKEN_STORED then final.token else 0, buffer := Pointers(final, n))
  }

  function Pointers(final: Transfer, n: nat): (ptrs: seq<nat>)
    requires |final.buffer| == 5
    ensures |ptrs| == 5 && (n >= STORES ==> ptrs == final.buffer)
  {
    seq(5, j requires 0 <= j < 5 => if TOKEN_STORED + j < n then final.buffer[j] else 0)
  }

  /** Cells hold what the stores so far have left there, but for the tokens of those taken; and the controller
      has taken descriptors along the finished links, each with its token. */
  ghost predicate InStep(job: Job, s: State)
    requires JobOk(job)
  {
    && |s.xs| == |job.xs| && s.stored <= |job.c| * STORES && s.xs[job.dummy] == job.xs[job.dummy]
    && (forall k :: 0 <= k < |job.c| ==>
          var x := Partial(job.xs[job.c[k]], job.final[k], Made(s.stored, k));
          s.xs[job.c[k]] == x.(token := if k < |s.taken| then s.xs[job.c[k]].token else x.token))
    && |s.taken| <= |job.c| && s.link == QtdPhys(Walk(job, |s.taken|)) && (s.ahead > 0 ==> s.taken == [])
    && forall k :: 0 <= k < |s.taken| ==> Made(s.stored, k) >= TOKEN_STORED
  }

  lemma StoreMade(job: Job, stored: nat, k: nat)
    requires stored < |job.c| * STORES && k < |job.c|
    ensures stored / STORES < |job.c|
    ensures Made(stored + 1, k) == if k == stored / STORES then Made(stored, k) + 1 else Made(stored, k)
    ensures k == stored / STORES ==> Made(stored, k) == stored % STORES
  {
  }

  /** A token that has been rewritten since it was stored stays. */
  lemma StoreWord(x: Transfer, final: Transfer, n: nat, token: nat)
    requires |final.buffer| == 5 && n < STORES && final.altNextQTD == TERMINATE
    requires n >= TOKEN_STORED || token == Partial(x, final, n).token
    ensures var y := Partial(x, final, n + 1);
      Word(Partial(x, final, n).(token := token), final, n)
      == y.(token := if n >= TOKEN_STORED then token else y.token)
  {
    var y := Partial(x, final, n);
    if n == 0 {
      assert Pointers(final, 1) == NO_BUFFERS;
    } else if n < TOKEN_STORED {
      assert Pointers(final, n + 1) == Pointers(final, n);
    } else {
      assert Pointers(final, n + 1) == Pointers(final, n)[n - TOKEN_STORED := final.buffer[n - TOKEN_STORED]];
    }
  }

  lemma CellIs(job: Job, s: State, k: nat)
    requires JobOk(job) && InStep(job, s) && k < |job.c|
    ensures k < |job.final| && 0 <= job.c[k] < |job.xs| == |s.xs| && |job.final[k].buffer| == 5
    ensures job.final[k].altNextQTD == TERMINATE && Active(job.final[k].token) && !Active(job.xs[job.c[k]].token)
    ensures job.final[k].nextQTD == QtdPhys(Walk(job, k + 1))
    ensures var x := Partial(job.xs[job.c[k]], job.final[k], Made(s.stored, k));
      s.xs[job.c[k]] == x.(token := if k < |s.taken| then s.xs[job.c[k]].token else x.token)
    ensures k < |s.taken| ==> Made(s.stored, k) >= TOKEN_STORED
  {
    hide Partial, Made, Active, Walk, NoDup, QtdPhys;
  }

  /** What the next store leaves in the k-th descriptor. */
  function Stored(job: Job, s: State, k: nat): Transfer
    requires k < |job.c| && k < |job.final| && 0 <= job.c[k] < |job.xs| && job.c[k] < |s.xs|
      && |job.final[k].buffer| == 5
  {
    var x := Partial(job.xs[job.c[k]], job.final[k], Made(s.stored, k) + 1);
    x.(token := if k < |s.taken| then s.xs[job.c[k]].token else x.token)
  }

  lemma StoreIs(job: Job, s: State, k: nat)
    requires JobOk(job) && InStep(job, s) && k == s.stored / STORES < |job.c|
    ensures k < |job.final| && 0 <= job.c[k] < |job.xs| == |s.xs| && |job.final[k].buffer| == 5
    ensures Next(job, s, Store) == s.(xs := s.xs[job.c[k] := Stored(job, s, k)], stored := s.stored + 1)
  {
    hide Word, Made, JobOk, InStep, Pointers;
    CellIs(job, s, k);
    StoreMade(job, s.stored, k);
    StoreWord(job.xs[job.c[k]], job.final[k], s.stored % STORES, s.xs[job.c[k]].token);
  }

  lemma StoreInStep(job: Job, s: State)
    requires JobOk(job) && InStep(job, s)
    ensures InStep(job, Next(job, s, Store))
  {
    var k := s.stored / STORES;
    if k < |job.c| {
      StoreIs(job, s, k);
      StoredOne(job, s, Next(job, s, Store), k);
    }
  }

  lemma StoredOne(job: Job, s: State, s': State, k: nat)
    requires JobOk(job) && InStep(job, s) && k == s.stored / STORES < |job.c|
    requires s' == s.(xs := s.xs[job.c[k] := Stored(job, s, k)], stored := s.stored + 1)
    ensures InStep(job, s')
  {
    hide Partial, Made, Active, Next, Walk;
    forall i | 0 <= i < |job.c|
      ensures var x := Partial(job.xs[job.c[i]], job.final[i], Made(s'.stored, i));
        s'.xs[job.c[i]] == x.(token := if i < |s'.taken| then s'.xs[job.c[i]].token else x.token)
      ensures Made(s'.stored, i) >= Made(s.stored, i)
    {
      StoreMade(job, s.stored, i);
    }
    StoreMade(job, s.stored, k);
  }

  lemma RetireInStep(job: Job, s: State, step: Step)
    requires JobOk(job) && InStep(job, s) && step.Retire?
    ensures InStep(job, Next(job, s, step))
  {
    hide Partial, Made, Active, Walk, QtdPhys;
    if Retires(job, s, step) {
      forall i | 0 <= i < |job.c| && i != step.k ensures job.c[i] != job.c[step.k] {}
    }
  }

  /** The controller takes a descriptor of the submission only with its token, and waits otherwise. */
  lemma FetchTakes(job: Job, s: State)
    requires JobOk(job) && InStep(job, s)
    ensures var k := |s.taken|; var s' := Next(job, s, Fetch);
      if s.ahead == 0 && k < |job.c| && Made(s.stored, k) >= TOKEN_STORED
      then s' == s.(link := QtdPhys(Walk(job, k + 1)),
                    taken := s.taken + [Found(QtdPhys(job.c[k]), s.xs[job.c[k]])])
           && s.xs[job.c[k]].nextQTD == job.final[k].nextQTD && s.xs[job.c[k]].altNextQTD == TERMINATE
           && s.xs[job.c[k]].token == job.final[k].token
           && s.xs[job.c[k]].buffer == Pointers(job.final[k], Made(s.stored, k))
      else s'.taken == s.taken && s'.link == s.link
  {
    hide Made, Pointers, JobOk, InStep, Active;
    var k := |s.taken|;
    PlaceIs(job, s);
    if k < |job.c| {
      CellIs(job, s, k);
      assert !Active(0) by { NotActive(); }
    }
  }

  lemma NotActive()
    ensures !Active(0)
  {
  }

  lemma PlaceIs(job: Job, s: State)
    requires JobOk(job) && InStep(job, s)
    ensures |s.taken| <= |job.c| && QtdAt(s.link) == Walk(job, |s.taken|) && s.link == QtdPhys(Walk(job, |s.taken|))
    ensures if |s.taken| == |job.c|
            then 0 <= Walk(job, |s.taken|) < |s.xs| && !Active(s.xs[Walk(job, |s.taken|)].token)
            else 0 <= job.c[|s.taken|] == Walk(job, |s.taken|)
  {
    hide Partial, Made, Active, NoDup, QtdPhys;
  }

  lemma FetchInStep(job: Job, s: State)
    requires JobOk(job) && InStep(job, s)
    ensures InStep(job, Next(job, s, Fetch))
  {
    hide Made, Active, Partial, Walk, QtdPhys;
    FetchTakes(job, s);
  }

  lemma {:induction false} RunInStep(job: Job, steps: seq<Step>)
    requires JobOk(job)
    ensures InStep(job, Run(job, steps))
  {
    hide Made, Active;
    if steps != [] {
      var before := steps[..|steps| - 1];
      RunInStep(job, before);
      match steps[|steps| - 1]
      case Store => StoreInStep(job, Run(job, before));
      case Fetch => FetchInStep(job, Run(job, before));
      case Retire(k, token) => RetireInStep(job, Run(job, before), steps[|steps| - 1]);
    } else {
      assert forall k :: 0 <= k < |job.c| ==> Made(0, k) == 0 by { NothingMade(); }
    }
  }

  lemma NothingMade()
    ensures forall k: nat :: Made(0, k) == 0
  {
  }

  // ---------------------------------------------------------------- stale pointers

  /** Descriptor k has its token, but not yet its last buffer pointer other than zero. */
  ghost predicate HalfWritten(job: Job, stored: nat, k: nat)
    requires k < |job.final| && |job.final[k].buffer| == 5
  {
    Made(stored, k) >= TOKEN_STORED && Pointers(job.final[k], Made(stored, k)) != job.final[k].buffer
  }

  /** The i-th step fetches descriptor k half written. */
  ghost predicate TakesEarly(job: Job, steps: seq<Step>, i: nat, k: nat)
    requires JobOk(job) && k < |job.c|
  {
    i < |steps| && steps[i] == Fetch
    && var s := Run(job, steps[..i]); s.ahead == 0 && |s.taken| == k && HalfWritten(job, s.stored, k)
  }

  /** Whatever the interleaving, the controller takes the descriptors in order along the finished links, each
      with its finished links and token; and it takes one with stale buffer pointers if and only if it
      fetches that after the store of its token and before that of its last pointer. */
  lemma {:induction false} StaleIff(job: Job, steps: seq<Step>)
    requires JobOk(job)
    ensures var taken := Run(job, steps).taken;
      && |taken| <= |job.c|
      && forall k :: 0 <= k < |taken| ==>
           (taken[k] == Found(QtdPhys(job.c[k]), job.final[k]).(buffer := taken[k].buffer)
            && (taken[k].buffer != job.final[k].buffer <==> exists i :: TakesEarly(job, steps, i, k)))
    ensures forall k, i :: |Run(job, steps).taken| <= k < |job.c| ==> !TakesEarly(job, steps, i, k)
  {
    hide Next, InStep, JobOk, HalfWritten;
    if steps != [] {
      var before := steps[..|steps| - 1];
      StaleIff(job, before);
      StaleNext(job, steps);
    }
  }

  /** A step adds at most the descriptor taken next. */
  lemma StaleNext(job: Job, steps: seq<Step>)
    requires JobOk(job) && steps != []
    ensures var before := steps[..|steps| - 1]; var s, s' := Run(job, before), Run(job, steps);
      && |s.taken| <= |job.c|
      && (forall i, k :: 0 <= i < |before| && 0 <= k < |job.c| ==>
            (TakesEarly(job, steps, i, k) <==> TakesEarly(job, before, i, k)))
      && (if |s'.taken| == |s.taken| then s'.taken == s.taken
            && forall k :: 0 <= k < |job.c| ==> !TakesEarly(job, steps, |before|, k)
          else
            var k := |s.taken|;
            && |s'.taken| == k + 1 <= |job.c| && s'.taken[..k] == s.taken
            && s'.taken[k] == Found(QtdPhys(job.c[k]), job.final[k]).(buffer := s'.taken[k].buffer)
            && (s'.taken[k].buffer != job.final[k].buffer <==> TakesEarly(job, steps, |before|, k))
            && forall j :: 0 <= j < |job.c| && j != k ==> !TakesEarly(job, steps, |before|, j))
  {
    hide Next, InStep, HalfWritten, JobOk;
    var before := steps[..|steps| - 1];
    RunInStep(job, before);
    StepTakes(job, Run(job, before), steps[|steps| - 1]);
    assert forall i :: 0 <= i < |before| ==> steps[..i] == before[..i];
    assert steps[..|before|] == before;
  }

  lemma StepTakes(job: Job, s: State, step: Step)
    requires JobOk(job) && InStep(job, s)
    ensures |s.taken| <= |job.c|
    ensures var k := |s.taken|; var s' := Next(job, s, step);
      if |s'.taken| == k then s'.taken == s.taken
        && (step == Fetch && s.ahead == 0 && k < |job.c| ==> !HalfWritten(job, s.stored, k))
      else
        && step == Fetch && s.ahead == 0 && |s'.taken| == k + 1 <= |job.c| && s'.taken[..k] == s.taken
        && s'.taken[k] == Found(QtdPhys(job.c[k]), job.final[k]).(buffer := s'.taken[k].buffer)
        && (s'.taken[k].buffer != job.final[k].buffer <==> HalfWritten(job, s.stored, k))
  {
    hide Made, Active, Pointers, Word;
    if step == Fetch { FetchTakes(job, s); }
  }

  // ---------------------------------------------------------------- the restart of a queue that was empty

  /** The driver puts the controller back to the first descriptor of the submission. */
  function Restarted(job: Job, s: State): State { s.(link := QtdPhys(Walk(job, 0))) }

  /** The descriptors of the submission and its dummy, in the order of the links. */
  function Along(job: Job): (w: seq<int>) { job.c + [job.dummy] }

  ghost predicate NoneSpent(job: Job, s: State)
  {
    forall k :: 0 <= k < |s.taken| && k < |job.c| && 0 <= job.c[k] < |s.xs| ==> Active(s.xs[job.c[k]].token)
  }

  /** Some step of the run retires a descriptor of the submission. */
  ghost predicate AnyRetires(job: Job, steps: seq<Step>)
  {
    exists i :: 0 <= i < |steps| && Retires(job, Run(job, steps[..i]), steps[i])
  }

  lemma SpentNext(job: Job, s: State, step: Step)
    requires JobOk(job) && InStep(job, s)
    ensures NoneSpent(job, Next(job, s, step)) <==> NoneSpent(job, s) && !Retires(job, s, step)
  {
    hide Made, Partial, Active, Walk, QtdPhys, Word;
    match step
    case Store =>
      var n := s.stored / STORES;
      if n < |job.c| {
        StoreIs(job, s, n);
        forall k | 0 <= k < |s.taken| ensures Next(job, s, Store).xs[job.c[k]].token == s.xs[job.c[k]].token {}
      }
    case Fetch =>
      FetchTakes(job, s);
    case Retire(k, token) =>
  }

  lemma {:induction false} SpentIff(job: Job, steps: seq<Step>)
    requires JobOk(job)
    ensures NoneSpent(job, Run(job, steps)) <==> !AnyRetires(job, steps)
  {
    hide JobOk, InStep, Next, Retires, NoneSpent;
    if steps == [] {
      assert NoneSpent(job, Start(job)) by { NothingSpent(job); }
    } else {
      var before := steps[..|steps| - 1];
      SpentIff(job, before);
      RunInStep(job, before);
      SpentNext(job, Run(job, before), steps[|steps| - 1]);
      assert forall i :: 0 <= i < |before| ==> steps[..i] == before[..i];
      assert steps[..|before|] == before;
    }
  }

  lemma NothingSpent(job: Job)
    ensures NoneSpent(job, Start(job))
  {
  }

  /** With all stores made the controller has a place among the descriptors. */
  lemma AllStored(job: Job, s: State)
    requires JobOk(job) && InStep(job, s) && s.stored == |job.c| * STORES
    ensures NoDup(Along(job)) && forall j :: 0 <= j < |Along(job)| ==> 0 <= Along(job)[j] < |s.xs|
    ensures FetchedAt(s.xs, s.link, Along(job), |s.taken|)
    ensures QtdAt(Restarted(job, s).link) == Along(job)[0]
  {
    hide Partial, Active, Word;
    PlaceIs(job, s);
    forall k | |s.taken| <= k < |job.c| ensures s.xs[job.c[k]].token == job.final[k].token {
      CellIs(job, s, k);
      assert Made(s.stored, k) == STORES;
      PartialToken(job.xs[job.c[k]], job.final[k]);
    }
  }

  lemma PartialToken(x: Transfer, final: Transfer)
    requires |final.buffer| == 5
    ensures Partial(x, final, STORES).token == final.token
  {
  }

  /** Restarting the controller at a submission to a queue that was empty gives it a place there if and only
      if it has retired none of the descriptors, whatever the interleaving. */
  lemma RestartIff(job: Job, steps: seq<Step>)
    requires JobOk(job) && Run(job, steps).stored == |job.c| * STORES
    ensures var s := Restarted(job, Run(job, steps));
      (exists i: nat :: FetchedAt(s.xs, s.link, Along(job), i)) <==> !AnyRetires(job, steps)
  {
    hide InStep, Run, AnyRetires;
    var s := Run(job, steps);
    RunInStep(job, steps);
    AllStored(job, s);
    SpentIff(job, steps);
    RestartPlaceIff(s.xs, Restarted(job, s).link, Along(job));
    assert forall k :: 0 <= k < |job.c| ==> Along(job)[k] == job.c[k];
  }

  /** It makes the controller move the bytes of a descriptor again if and only if it has taken the first and
      not retired that. */
  lemma RestartRepeatsIff(job: Job, steps: seq<Step>)
    requires JobOk(job) && Run(job, steps).stored == |job.c| * STORES
    ensures var s := Run(job, steps); |s.xs| == |job.xs| && 0 <= Along(job)[0] < |s.xs|
    ensures var s := Run(job, steps);
      (exists j: nat :: FetchesAgain(s.xs, Along(job), |s.taken|, 0, j))
      <==> s.taken != [] && Active(s.xs[Along(job)[0]].token)
  {
    hide Next, Active;
    var s := Run(job, steps);
    RunInStep(job, steps);
    AllStored(job, s);
    FetchesAgainIff(s.xs, s.link, Along(job), |s.taken|, 0);
  }

  // ---------------------------------------------------------------- what the driver stores

  /** The descriptors that a submission is to write. */
  function Descriptors(c: seq<int>, newDummy: int, t: int, txn: Transaction, control: bool, maxPacketSize: nat)
    : (final: seq<Transfer>)
    requires |c| == TransferCount(txn.totalLength) && newDummy >= NIL && forall i :: 0 <= i < |c| ==> c[i] >= NIL
    ensures |final| == |c|
  {
    seq(|c|, k requires 0 <= k < |c| => DescriptorAt(c, newDummy, t, txn, control, maxPacketSize, k))
  }

  /** The stores of a submission over an endpoint's dummy and the cells in hand. */
  lemma SubmissionReady(m: Memory, v0: View, xs0: seq<Transfer>, v: View, e: int, t: int, head: int, tail: int,
                        extras: seq<int>, newDummy: int, txn: Transaction, control: bool, maxPacketSize: nat,
                        ahead: nat)
    requires Ok(m, v) && Ready(v0, xs0, v, m.xs, head, tail, extras, newDummy)
    requires 0 <= e < |m.eps| && v.use[e] == Listed
    requires |extras| + 1 == TransferCount(txn.totalLength) && txn.first == m.eps[e].dummyTransfer
    ensures var c := [txn.first] + extras;
      && |c| == TransferCount(txn.totalLength) && newDummy >= NIL && (forall i :: 0 <= i < |c| ==> c[i] >= NIL)
      && JobOk(Job(m.xs, c, newDummy, Descriptors(c, newDummy, t, txn, control, maxPacketSize), ahead))
  {
    hide FreeOk, ChainsOk, QueuesOk, ListOk, RingOk, KeysOk, Active, DescriptorAt, TransferCount, Chain;
    QueueParts(m, v, e);
    NotActive();
    var c := [txn.first] + extras;
    forall k | 0 <= k < |c| ensures 0 <= c[k] < |m.xs| && !Active(m.xs[c[k]].token) && c[k] != newDummy {
      assert k > 0 ==> c[k] == extras[k - 1];
    }
    DescriptorWords(c, newDummy, t, txn, control, maxPacketSize);
  }

  lemma DescriptorWords(c: seq<int>, newDummy: int, t: int, txn: Transaction, control: bool, maxPacketSize: nat)
    requires |c| == TransferCount(txn.totalLength) && newDummy >= NIL && forall i :: 0 <= i < |c| ==> c[i] >= NIL
    ensures forall k :: 0 <= k < |c| ==>
      (var x := DescriptorAt(c, newDummy, t, txn, control, maxPacketSize, k);
       Active(x.token) && |x.buffer| == 5 && x.altNextQTD == TERMINATE
       && x.nextQTD == QtdPhys(if k + 1 < |c| then c[k + 1] else newDummy))
  {
    hide Active, MakeToken, ToggleAt, BufferPointers, TransferCount;
    forall k | 0 <= k < |c|
      ensures Active(DescriptorAt(c, newDummy, t, txn, control, maxPacketSize, k).token)
    {
      ChunksCover(txn.totalLength, k);
      TokenReadsBack(Pid(txn.direction), ChunkSize(txn.totalLength, k), k + 1 == |c|,
                     control && ToggleAt(control, txn.direction, maxPacketSize, txn.totalLength, k));
    }
  }

  /** A descriptor without bytes is never half written; one with bytes, whose pages end below 2^32, is from the
      store of its token to that of its last pointer. */
  lemma HalfWrittenIff(job: Job, stored: nat, k: nat, base: nat, offset: nat)
    requires k < |job.final| && |job.final[k].buffer| == 5
    ensures job.final[k].buffer == NO_BUFFERS ==> !HalfWritten(job, stored, k)
    ensures job.final[k].buffer == BufferPointers(base, offset) && (base + offset) % WORD + 4 * PAGE < WORD ==>
      (HalfWritten(job, stored, k) <==> TOKEN_STORED <= Made(stored, k) < STORES)
  {
    hide Made;
    var n := Made(stored, k);
    var ptrs := Pointers(job.final[k], n);
    assert n < STORES ==> ptrs[4] == 0;
    assert forall j :: 0 <= j < 5 && job.final[k].buffer[j] == 0 ==> ptrs[j] == 0;
    if job.final[k].buffer == BufferPointers(base, offset) && (base + offset) % WORD + 4 * PAGE < WORD {
      var page := (base + offset) % WORD / PAGE * PAGE;
      assert 0 < page + 4 * PAGE < WORD && job.final[k].buffer[4] == page + 4 * PAGE;
    }
  }

  // ---------------------------------------------------------------- a run with a stale descriptor

  function Repeat(step: Step, n: nat): (steps: seq<Step>)
    ensures |steps| == n
  {
    seq(n, i => step)
  }

  lemma {:induction false} StoresRun(job: Job, n: nat)
    requires JobOk(job) && n <= |job.c| * STORES
    ensures var s := Run(job, Repeat(Store, n)); s.stored == n && s.taken == [] && s.ahead == job.ahead
  {
    hide Next, JobOk, InStep, Stored, Made;
    if n > 0 {
      var steps := Repeat(Store, n);
      assert steps[..n - 1] == Repeat(Store, n - 1);
      StoresRun(job, n - 1);
      RunInStep(job, steps[..n - 1]);
      StoreMade(job, n - 1, 0);
      StoreIs(job, Run(job, steps[..n - 1]), (n - 1) / STORES);
    }
  }

  /** Once the token of descriptor k is stored the controller can fetch up to it. */
  lemma {:induction false} FetchesRun(job: Job, k: nat, n: nat)
    requires JobOk(job) && k < |job.c| && n <= job.ahead + k + 1
    ensures var s := Run(job, Repeat(Store, k * STORES + TOKEN_STORED) + Repeat(Fetch, n));
      && s.stored == k * STORES + TOKEN_STORED && s.ahead == (if n < job.ahead then job.ahead - n else 0)
      && |s.taken| == if n < job.ahead then 0 else n - job.ahead
  {
    hide Next, JobOk, InStep;
    var stores := Repeat(Store, k * STORES + TOKEN_STORED);
    var steps := stores + Repeat(Fetch, n);
    if n == 0 {
      assert steps == stores;
      StoresRun(job, |stores|);
    } else {
      assert steps[..|steps| - 1] == stores + Repeat(Fetch, n - 1);
      FetchesRun(job, k, n - 1);
      RunInStep(job, steps[..|steps| - 1]);
      FetchOne(job, Run(job, steps[..|steps| - 1]), k);
    }
  }

  lemma FetchOne(job: Job, s: State, k: nat)
    requires JobOk(job) && InStep(job, s) && k < |job.c| && s.stored == k * STORES + TOKEN_STORED && |s.taken| <= k
    ensures var s' := Next(job, s, Fetch);
      && s'.stored == s.stored && s'.ahead == (if s.ahead > 0 then s.ahead - 1 else 0)
      && |s'.taken| == if s.ahead > 0 then |s.taken| else |s.taken| + 1
  {
    hide Active;
    assert Made(s.stored, |s.taken|) >= TOKEN_STORED;
    FetchTakes(job, s);
  }

  lemma MadeToken(k: nat)
    ensures Made(k * STORES + TOKEN_STORED, k) == TOKEN_STORED
  {
  }

  /** Every descriptor whose last pointer is not zero can be taken without any of its pointers. */
  lemma StaleReached(job: Job, k: nat) returns (steps: seq<Step>)
    requires JobOk(job) && k < |job.c| && job.final[k].buffer[4] != 0
    ensures var taken := Run(job, steps).taken;
      |taken| == k + 1 && Active(taken[k].token) && taken[k].buffer == NO_BUFFERS != job.final[k].buffer
  {
    hide Active, Next, JobOk, InStep, Made;
    steps := Repeat(Store, k * STORES + TOKEN_STORED) + Repeat(Fetch, job.ahead + k + 1);
    FetchesRun(job, k, job.ahead + k);
    FetchesRun(job, k, job.ahead + k + 1);
    var before := steps[..|steps| - 1];
    assert before == Repeat(Store, k * STORES + TOKEN_STORED) + Repeat(Fetch, job.ahead + k);
    RunInStep(job, before);
    FetchTakes(job, Run(job, before));
    CellIs(job, Run(job, before), k);
    assert Made(k * STORES + TOKEN_STORED, k) == TOKEN_STORED by { MadeToken(k); }
    assert Pointers(job.final[k], TOKEN_STORED) == NO_BUFFERS;
  }
}
