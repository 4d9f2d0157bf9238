/**
 The SD host controller's command engine: a first-in first-out queue of commands, one of them in
 flight, moved on by interrupts and bounded by a watchdog.  A command's completion callback may
 submit further commands, re-entering the engine.
 */
module SdhcEngine {
  const DOUBLE_BUFFER: nat := 8 * 512 * 2
  const COMMAND_TIMEOUT_US: nat := 5_000_000
  const WATCHDOG_US: nat := 1000
  const READ_SINGLE_BLOCK: nat := 17

  // Bits of the normal and of the error interrupt status.
  const COMMAND_COMPLETE: nat := 0x1
  const TRANSFER_COMPLETE: nat := 0x2
  const DMA_INTERRUPT: nat := 0x8
  const ERROR_INTERRUPT: nat := 0x8000
  const COMMAND_TIMED_OUT: nat := 0x1
  const DATA_TIMED_OUT: nat := 0x10

  datatype Status = Success | NoMedia | Timeout | NoMemory | IOError

  datatype State = Started | Cmd | DataTx | Complete

  datatype Option<T> = None | Some(value: T)

  /** A submitted command: `data` is the content of the caller's buffer, if any, and `followUps` are the
      commands its callback submits. */
  datatype Request = Request(index: nat, argument: nat, hasBuffer: bool, isRead: bool, data: seq<nat>, offset: nat,
                             blockCount: nat, followUps: seq<Request>)

  /** The command in flight; `prepared` counts how often its data transfer was set up. */
  datatype Command = Command(request: Request, state: State, index: nat, data: seq<nat>, offset: nat, byteCount: nat,
                             segment: nat, prepared: nat)

  datatype Completion = Completion(request: Request, status: Status, data: seq<nat>)

  predicate Has(word: nat, bit: nat) { bit > 0 && word / bit % 2 == 1 }

  predicate Failed(normal: nat, error: nat) { error != 0 || Has(normal, ERROR_INTERRUPT) }

  predicate Ready(normal: nat) { Has(normal, DMA_INTERRUPT) || Has(normal, TRANSFER_COMPLETE) }

  function ErrorStatus(error: nat): (status: Status)
    ensures status == Timeout <==> error % 2 == 1 || error / 0x10 % 2 == 1
    ensures status in {Timeout, IOError}
  {
    if Has(error, COMMAND_TIMED_OUT) || Has(error, DATA_TIMED_OUT) then Timeout else IOError
  }

  // ---------------------------------------------------------------- what an interrupt does

  /** An interrupt with these status words finishes a command that has been issued: on an error; in the
      command phase unless its data is still to come; in the data phase unless the controller only asks for
      more. */
  ghost predicate Finishes(c: Command, normal: nat, error: nat)
  {
    || error != 0 || normal / 0x8000 % 2 == 1 || normal / 2 % 2 == 1
    || if c.state == Cmd then normal % 2 == 0 || !c.request.hasBuffer else normal / 8 % 2 == 0
  }

  /** The status with which it finishes: that of the error, or IOError when the awaited bit is missing. */
  ghost function Outcome(c: Command, normal: nat, error: nat): Status
  {
    if error != 0 || normal / 0x8000 % 2 == 1 then
      if error % 2 == 1 || error / 0x10 % 2 == 1 then Timeout else IOError
    else if if c.state == Cmd then normal % 2 == 0 else normal / 2 % 2 == 0 && normal / 8 % 2 == 0 then IOError
    else Success
  }

  /** The caller's buffer after the interrupt: a read's bytes are copied there when the data phase is reached
      and the controller is ready. */
  ghost function Received(c: Command, normal: nat, error: nat, double: seq<nat>, blockLength: nat): seq<nat>
    requires |double| == DOUBLE_BUFFER && Fits(c.request, blockLength)
  {
    var r := c.request;
    if Outcome(c, normal, error) == Success && r.hasBuffer && r.isRead && r.blockCount != 0
       && (normal / 2 % 2 == 1 || normal / 8 % 2 == 1)
    then Written(r.data, r.offset, Unsigned(double, r.argument)[..r.blockCount * blockLength])
    else c.data
  }

  // ---------------------------------------------------------------- how much work is submitted

  /** The number of commands a request leads to, its follow-ups included. */
  function Size(r: Request): (n: nat)
    ensures n >= 1
    decreases r, |r.followUps| + 1
  {
    1 + SizeFrom(r, 0)
  }

  function SizeFrom(r: Request, i: nat): nat
    requires i <= |r.followUps|
    decreases r, |r.followUps| - i
  {
    if i == |r.followUps| then 0 else Size(r.followUps[i]) + SizeFrom(r, i + 1)
  }

  function TotalSize(q: seq<Request>): nat
  {
    if q == [] then 0 else Size(q[0]) + TotalSize(q[1..])
  }

  lemma {:induction false} TotalSizeMore(q: seq<Request>, r: Request)
    ensures TotalSize(q + [r]) == TotalSize(q) + Size(r)
  {
    if q == [] {
      assert [r][1..] == [];
    } else {
      assert (q + [r])[1..] == q[1..] + [r];
      TotalSizeMore(q[1..], r);
    }
  }

  /** The commands that are queued, in flight, or will be submitted by their callbacks. */
  function Work(queue: seq<Request>, current: Option<Command>): nat
  {
    TotalSize(queue) + match current case None => 0 case Some(c) => Size(c.request)
  }

  // ---------------------------------------------------------------- data

  /** The caller's buffer after bytes are written at an offset; what does not fit is dropped. */
  function Written(data: seq<nat>, offset: nat, bytes: seq<nat>): (data': seq<nat>)
    ensures |data'| == |data|
  {
    seq(|data|, i requires 0 <= i < |data| => if offset <= i < offset + |bytes| then bytes[i - offset] else data[i])
  }

  /** The double buffer as handed to the caller: block 0 loses its two signature bytes. */
  function Unsigned(double: seq<nat>, argument: nat): (double': seq<nat>)
    ensures |double'| == |double|
  {
    if argument == 0 && |double| > 0x1FF then double[0x1FE := 0][0x1FF := 0] else double
  }

  predicate Fits(r: Request, blockLength: nat)
  {
    && r.blockCount * blockLength <= DOUBLE_BUFFER
    && (forall i :: 0 <= i < |r.followUps| ==> Fits(r.followUps[i], blockLength))
  }

  /** A command in flight has set up its data transfer once, for all of its blocks. */
  predicate InFlight(c: Command, blockLength: nat)
  {
    var r := c.request;
    && Fits(r, blockLength) && (c.state == Cmd || c.state == DataTx) && |c.data| == |r.data|
    && (r.hasBuffer ==>
          (c.prepared == 1 && c.segment == r.blockCount * blockLength == c.byteCount
           && c.offset == r.offset + c.segment && r.blockCount * blockLength <= |r.data|))
    && (!r.hasBuffer ==> c.prepared == 0 && c.state == Cmd)
    && (!r.hasBuffer || !r.isRead || r.blockCount == 0 ==> c.data == r.data)
    && (forall i :: 0 <= i < |c.data| && !(r.offset <= i < r.offset + c.segment) ==> c.data[i] == r.data[i])
  }

  function Fresh(r: Request): Command { Command(r, Started, r.index, r.data, r.offset, 0, 0, 0) }

  /** Bytes copied out of the caller's buffer into the front of the double buffer. */
  function CopiedOut(double: seq<nat>, data: seq<nat>, offset: nat, n: nat): (double': seq<nat>)
    ensures |double'| == |double|
  {
    seq(|double|, i requires 0 <= i < |double| => if i < n && offset + i < |data| then data[offset + i] else double[i])
  }

  /** The commands that the callbacks of completed commands submit. */
  function FollowUps(cs: seq<Completion>): multiset<Request>
  {
    if cs == [] then multiset{} else FollowUps(cs[..|cs| - 1]) + multiset(cs[|cs| - 1].request.followUps)
  }

  lemma FollowUpsMore(cs: seq<Completion>, c: Completion)
    ensures FollowUps(cs + [c]) == FollowUps(cs) + multiset(c.request.followUps)
  {
    assert (cs + [c])[..|cs|] == cs;
  }

  ghost predicate Balanced(enqueued: seq<Request>, owed: multiset<Request>, external: multiset<Request>,
                           completed: seq<Completion>)
  {
    multiset(enqueued) + owed == external + FollowUps(completed)
  }

  lemma EnqueueBalanced(enqueued: seq<Request>, owed: multiset<Request>, external: multiset<Request>,
                        completed: seq<Completion>, r: Request)
    requires Balanced(enqueued, owed, external, completed)
    ensures Balanced(enqueued + [r], owed, external + multiset{r}, completed)
    ensures r in owed ==> Balanced(enqueued + [r], owed - multiset{r}, external, completed)
  {
    hide FollowUps;
    var all, f := multiset(enqueued), FollowUps(completed);
    assert multiset(enqueued + [r]) == all + multiset{r};
    assert (all + multiset{r}) + owed == (all + owed) + multiset{r};
    assert (external + multiset{r}) + f == (external + f) + multiset{r};
    if r in owed {
      assert (all + multiset{r}) + (owed - multiset{r}) == all + owed;
    }
  }

  lemma CompleteBalanced(enqueued: seq<Request>, owed: multiset<Request>, external: multiset<Request>,
                         completed: seq<Completion>, c: Completion)
    requires Balanced(enqueued, owed, external, completed)
    ensures Balanced(enqueued, owed + multiset(c.request.followUps), external, completed + [c])
    ensures multiset(c.request.followUps) <= owed + multiset(c.request.followUps)
    ensures owed + multiset(c.request.followUps) - multiset(c.request.followUps) == owed
  {
    hide FollowUps;
    FollowUpsMore(completed, c);
    var more := multiset(c.request.followUps);
    assert multiset(enqueued) + (owed + more) == (multiset(enqueued) + owed) + more;
    assert external + (FollowUps(completed) + more) == (external + FollowUps(completed)) + more;
  }

  function Requests(cs: seq<Completion>): (rs: seq<Request>)
    ensures |rs| == |cs|
  {
    seq(|cs|, i requires 0 <= i < |cs| => cs[i].request)
  }

  class Engine {
    var queue: seq<Request>
    var current: Option<Command>
    var busy: bool
    var timeoutRemaining: nat
    var doubleBuffer: seq<nat>
    const blockLength: nat

    ghost var enqueued: seq<Request>
    ghost var begun: seq<Request>
    ghost var completed: seq<Completion>
    /** Commands submitted by clients, and those a running callback has yet to submit. */
    ghost var external: multiset<Request>
    ghost var owed: multiset<Request>
    /** The deepest nesting of completions so far. */
    ghost var deepest: nat

    /** At most one command is in flight and the controller is busy exactly then; commands begin in the
        order they were submitted, and every command that began is in flight or has completed once. */
    ghost predicate Valid()
      reads this
    {
      Ordered() && Accounted() && (current.Some? ==> InFlight(current.value, blockLength))
    }

    /** Every command that was submitted came from a client or from the callback of a completed command,
        and each of those was submitted exactly once. */
    ghost predicate Accounted()
      reads this`enqueued, this`owed, this`external, this`completed
    {
      Balanced(enqueued, owed, external, completed)
    }

    ghost predicate Ordered()
      reads this
    {
      && (busy <==> current.Some?)
      && enqueued == begun + queue
      && begun == Requests(completed) + (if current.Some? then [current.value.request] else [])
      && (current.Some? ==> Fits(current.value.request, blockLength))
      && |doubleBuffer| == DOUBLE_BUFFER
      && forall i :: 0 <= i < |queue| ==> Fits(queue[i], blockLength)
    }

    /** Nothing waits while the controller is free. */
    ghost predicate Quiet()
      reads this
    {
      queue != [] ==> current.Some?
    }

    /** The command in flight has its whole time ahead of it. */
    ghost predicate Timed()
      reads this`current, this`timeoutRemaining
    {
      current.Some? ==> timeoutRemaining == COMMAND_TIMEOUT_US
    }

    ghost function Load(): nat
      reads this`queue, this`current
    {
      Work(queue, current)
    }

    constructor (blockLength: nat)
      ensures Valid() && Quiet() && enqueued == [] && completed == [] && owed == multiset{}
        && this.blockLength == blockLength
    {
      queue, current, busy, timeoutRemaining := [], None, false, 0;
      doubleBuffer := seq(DOUBLE_BUFFER, i => 0);
      enqueued, begun, completed, deepest, external, owed := [], [], [], 0, multiset{}, multiset{};
      this.blockLength := blockLength;
    }

    /** What one entry into the engine leaves behind: history only grows, and the work outstanding has
        not grown beyond what was submitted. */
    twostate predicate Progress(added: nat, depth: nat)
      reads this
    {
      && old(enqueued) <= enqueued && old(completed) <= completed && old(begun) <= begun
      && Load() <= old(Load()) + added
      && deepest <= Max(old(deepest), depth + old(Load()) + added)
    }

    static function Max(a: nat, b: nat): nat { if a > b then a else b }

    /** What an interrupt does to the command in flight, which has been issued: it completes next, or it
        stays in flight and waits for more, nothing else changed. */
    twostate predicate Answered(normal: nat, error: nat)
      requires old(current).Some? && |old(doubleBuffer)| == DOUBLE_BUFFER
      requires Fits(old(current).value.request, blockLength)
      reads this
    {
      var c := old(current).value;
      var data := Received(c, normal, error, old(doubleBuffer), blockLength);
      if Finishes(c, normal, error) then
        |completed| > |old(completed)|
        && completed[|old(completed)|] == Completion(c.request, Outcome(c, normal, error), data)
      else
        current == Some(c.(state := DataTx, data := data)) && completed == old(completed) && queue == old(queue)
    }

    /** What beginning a command does: it is issued, or it completes next with the cause why it is not. */
    twostate predicate Dispatched(r: Request)
      reads this
    {
      if |completed| > |old(completed)| then
        var d := completed[|old(completed)|];
        && d.request == r && d.data == r.data && d.status in {NoMedia, Timeout, NoMemory}
        && (d.status == NoMemory ==> r.hasBuffer && |r.data| < r.blockCount * blockLength)
      else completed == old(completed) && Issued(r, Success, old(doubleBuffer))
    }

    // -------------------------------------------------------------- the queue

    /** Submits a command: it waits its turn, or begins at once when the controller is free. */
    method ExecuteCommandGated(r: Request, ghost fromCallback: bool, ghost depth: nat)
      requires Valid() && Fits(r, blockLength) && (fromCallback ==> r in owed)
      modifies this
      ensures Valid() && Quiet()
      ensures if fromCallback then owed == old(owed) - multiset{r} && external == old(external)
              else owed == old(owed) && external == old(external) + multiset{r}
      ensures old(enqueued) + [r] <= enqueued
      ensures if old(current).Some? then current == old(current) && timeoutRemaining == old(timeoutRemaining)
              else Timed()
      ensures old(current).Some? ==> queue == old(queue) + [r] && completed == old(completed)
      ensures old(current).None? ==> Dispatched((old(queue) + [r])[0])
      ensures Progress(Size(r), depth)
      decreases Load() + Size(r), 4
    {
      hide Balanced, InFlight, Requests, Size, TotalSize;
      TotalSizeMore(queue, r);
      EnqueueBalanced(enqueued, owed, external, completed, r);
      queue := queue + [r];
      enqueued := enqueued + [r];
      if fromCallback {
        owed := owed - multiset{r};
      } else {
        external := external + multiset{r};
      }
      assert begun + queue == enqueued;
      if current.None? {
        DispatchNext(depth);
      }
    }

    /** Begins the next queued command if the controller is free. */
    method DispatchNext(ghost depth: nat)
      requires Valid()
      modifies this
      ensures Valid() && Quiet() && owed == old(owed) && external == old(external)
      ensures if old(current).Some? then current == old(current) && timeoutRemaining == old(timeoutRemaining)
              else Timed()
      ensures old(current).Some? || old(queue) == [] ==> queue == old(queue) && completed == old(completed)
      ensures old(current).None? && old(queue) != [] ==> Dispatched(old(queue)[0])
      ensures Progress(0, depth)
      decreases Load(), 3
    {
      hide Balanced, InFlight, Size, Requests;
      if busy {
        return;
      }
      busy := true;
      if queue == [] {
        busy := false;
        return;
      }
      var r := queue[0];
      current := Some(Fresh(r));
      queue := queue[1..];
      begun := begun + [r];
      assert begun + queue == enqueued;
      var present := CardPresent();
      if !present {
        CompleteIO(NoMedia, depth);
        return;
      }
      DoAsyncIO(0, 0, depth);
    }

    /** A card may be inserted or removed at any time. */
    static method CardPresent() returns (present: bool)
    {
      present := *;
    }

    /** Records the result of the command in flight, runs its callback and looks for more work. */
    method CompleteIO(status: Status, ghost depth: nat)
      requires Ordered() && Accounted() && current.Some?
      modifies this
      ensures Valid() && Quiet() && owed == old(owed) && external == old(external)
      ensures |completed| > |old(completed)| &&
        completed[|old(completed)|] == Completion(old(current).value.request, status, old(current).value.data)
      ensures Timed() && Progress(0, depth)
      decreases Load(), 1
    {
      hide Balanced, InFlight, Requests, Size, TotalSize, SizeFrom, Fits;
      var finished := current.value;
      RequestsMore(completed, Completion(finished.request, status, finished.data));
      SizeIs(finished.request);
      current := None;
      busy := false;
      timeoutRemaining := 0;
      CompleteBalanced(enqueued, owed, external, completed, Completion(finished.request, status, finished.data));
      completed := completed + [Completion(finished.request, status, finished.data)];
      owed := owed + multiset(finished.request.followUps);
      deepest := Max(deepest, depth + 1);
      RunCallback(finished.request, depth + 1);
      DispatchNext(depth + 1);
    }

    /** The callback of a finished command submits its follow-ups in order. */
    method RunCallback(r: Request, ghost depth: nat)
      requires Valid() && current.None? && Timed() && Fits(r, blockLength) && multiset(r.followUps) <= owed
      modifies this
      ensures Valid() && owed == old(owed) - multiset(r.followUps) && external == old(external) && Timed()
      ensures Progress(SizeFrom(r, 0), depth)
      decreases Load() + SizeFrom(r, 0), 5
    {
      hide Balanced, InFlight, Ordered, Work, Accounted, Size, SizeFrom, Fits, Timed, FollowUps, StillOwed;
      SizeEnd(r);
      ghost var load := Load();
      OwedEnds(owed, r.followUps);
      var i := 0;
      while i < |r.followUps|
        invariant 0 <= i <= |r.followUps| && Valid() && external == old(external) && Timed()
        invariant owed == StillOwed(old(owed), r.followUps, i)
        invariant old(enqueued) <= enqueued && old(completed) <= completed && old(begun) <= begun
        invariant Load() + SizeFrom(r, i) <= load + SizeFrom(r, 0)
        invariant deepest <= Max(old(deepest), depth + load + SizeFrom(r, 0))
      {
        NextOwed(old(owed), r.followUps, i);
        NextFollowUp(r, blockLength, i);
        ExecuteCommandGated(r.followUps[i], true, depth);
        i := i + 1;
      }
    }

    static lemma RequestsMore(cs: seq<Completion>, c: Completion)
      ensures Requests(cs + [c]) == Requests(cs) + [c.request] && Requests(cs) + [] == Requests(cs)
    {
    }

    static lemma SizeEnd(r: Request)
      ensures SizeFrom(r, |r.followUps|) == 0
    {
    }

    static lemma NextFollowUp(r: Request, blockLength: nat, i: nat)
      requires i < |r.followUps| && Fits(r, blockLength)
      ensures Fits(r.followUps[i], blockLength) && SizeFrom(r, i) == Size(r.followUps[i]) + SizeFrom(r, i + 1)
    {
    }

    static lemma SizeIs(r: Request)
      ensures Size(r) == 1 + SizeFrom(r, 0)
    {
    }

    static ghost function StillOwed(owed: multiset<Request>, rs: seq<Request>, i: nat): multiset<Request>
      requires i <= |rs|
    {
      owed - multiset(rs[..i])
    }

    static lemma OwedEnds(owed: multiset<Request>, rs: seq<Request>)
      ensures StillOwed(owed, rs, 0) == owed && StillOwed(owed, rs, |rs|) == owed - multiset(rs)
    {
      assert rs[..|rs|] == rs;
    }

    static lemma NextOwed(owed: multiset<Request>, rs: seq<Request>, i: nat)
      requires i < |rs| && multiset(rs) <= owed
      ensures rs[i] in StillOwed(owed, rs, i)
      ensures StillOwed(owed, rs, i + 1) == StillOwed(owed, rs, i) - multiset{rs[i]}
    {
      assert rs[..i + 1] == rs[..i] + [rs[i]];
      assert rs == rs[..i + 1] + rs[i + 1..];
    }

    // -------------------------------------------------------------- the command in flight

    /** Sets up the data transfer of all blocks at once. */
    method PrepareDataTx()
      requires current.Some? && |doubleBuffer| == DOUBLE_BUFFER
      requires current.value.request.blockCount * blockLength <= DOUBLE_BUFFER
      modifies this`current, this`doubleBuffer
      ensures current.Some? && |doubleBuffer| == DOUBLE_BUFFER
      ensures var c, r := old(current).value, old(current).value.request; var n := r.blockCount * blockLength;
        && current.value == c.(segment := n, prepared := c.prepared + 1, byteCount := c.byteCount + n,
                               offset := c.offset + n)
        && doubleBuffer == (if r.blockCount > 0 && !r.isRead then CopiedOut(old(doubleBuffer), c.data, c.offset, n)
                            else old(doubleBuffer))
    {
      var c := current.value;
      var n := c.request.blockCount * blockLength;
      current := Some(c.(segment := n, prepared := c.prepared + 1));
      if c.request.blockCount > 0 {
        if !c.request.isRead {
          doubleBuffer := CopiedOut(doubleBuffer, c.data, c.offset, n);
        }
        current := Some(current.value.(offset := c.offset + n, byteCount := c.byteCount + n));
      } else {
        assert n == 0;
      }
    }

    /** Issues the command that has just begun, unless the controller stays inhibited or the caller's
        buffer is too small. */
    method IssueCommand() returns (status: Status)
      requires current.Some? && current.value == Fresh(current.value.request)
        && Fits(current.value.request, blockLength)
      requires |doubleBuffer| == DOUBLE_BUFFER
      modifies this`current, this`doubleBuffer, this`timeoutRemaining
      ensures current.Some? && current.value.request == old(current).value.request && |doubleBuffer| == DOUBLE_BUFFER
      ensures current.value.data == old(current).value.data
      ensures current.value.state == Complete <==> status != Success
      ensures status == Success ==>
        InFlight(current.value, blockLength) && current.value.state == Cmd && timeoutRemaining == COMMAND_TIMEOUT_US
      ensures Issued(old(current).value.request, status, old(doubleBuffer))
    {
      var r := current.value.request;
      var inhibited := Inhibited();
      if inhibited {
        current := Some(current.value.(state := Complete));
        return Timeout;
      }
      if r.hasBuffer && r.blockCount == 0 {
        current := Some(current.value.(index := READ_SINGLE_BLOCK));
      }
      if r.hasBuffer {
        if |r.data| < r.blockCount * blockLength {
          current := Some(current.value.(state := Complete));
          return NoMemory;
        }
        PrepareDataTx();
      }
      current := Some(current.value.(state := Cmd));
      timeoutRemaining := COMMAND_TIMEOUT_US;
      status := Success;
    }

    /** The controller may never become ready for a command. */
    static method Inhibited() returns (inhibited: bool)
    {
      inhibited := *;
    }

    /** Handles a command-complete interrupt; `more` asks to go on with the data phase at once. */
    method FinishCommandPhase(normal: nat, error: nat) returns (status: Status, more: bool)
      requires current.Some? && InFlight(current.value, blockLength) && current.value.state == Cmd
      modifies this`current
      ensures current.Some? && current.value == old(current).value.(state := current.value.state)
      ensures current.value.state == Complete <==>
        Failed(normal, error) || !Has(normal, COMMAND_COMPLETE) || !current.value.request.hasBuffer
      ensures status == if Failed(normal, error) then ErrorStatus(error)
                        else if !Has(normal, COMMAND_COMPLETE) then IOError else Success
      ensures current.value.state != Complete ==> InFlight(current.value, blockLength) && current.value.state == DataTx
      ensures more <==> current.value.state == DataTx && Ready(normal)
    {
      more := false;
      var c := current.value;
      if error != 0 || Has(normal, ERROR_INTERRUPT) {
        current := Some(c.(state := Complete));
        return ErrorStatus(error), false;
      }
      if !Has(normal, COMMAND_COMPLETE) {
        current := Some(c.(state := Complete));
        return IOError, false;
      }
      if !c.request.hasBuffer {
        current := Some(c.(state := Complete));
        return Success, false;
      }
      current := Some(c.(state := DataTx));
      status, more := Success, Has(normal, DMA_INTERRUPT) || Has(normal, TRANSFER_COMPLETE);
    }

    /** Handles an interrupt of the data phase.  A transfer that completes without an error always
        succeeds: all bytes were set up at once, so none are missing and no further set-up happens. */
    method FinishDataPhase(normal: nat, error: nat) returns (status: Status)
      requires current.Some? && InFlight(current.value, blockLength) && current.value.state == DataTx
      requires |doubleBuffer| == DOUBLE_BUFFER
      modifies this`current, this`doubleBuffer
      ensures current.Some? && |doubleBuffer| == DOUBLE_BUFFER && current.value.request == old(current).value.request
      ensures current.value == old(current).value.(state := current.value.state, data := current.value.data)
      ensures current.value.state == Complete <==>
        Failed(normal, error) || !Ready(normal) || Has(normal, TRANSFER_COMPLETE)
      ensures status == if Failed(normal, error) then ErrorStatus(error)
                        else if !Ready(normal) then IOError else Success
      ensures current.value.state != Complete ==> InFlight(current.value, blockLength) && current.value.state == DataTx
      ensures var r := current.value.request;
        status == Success && r.isRead && r.blockCount != 0 ==>
          current.value.data == Written(r.data, r.offset,
                                        Unsigned(old(doubleBuffer), r.argument)[..r.blockCount * blockLength])
      ensures var r := current.value.request;
        status != Success || !r.isRead || r.blockCount == 0 ==> current.value.data == old(current).value.data
    {
      var c := current.value;
      var r := c.request;
      if error != 0 || Has(normal, ERROR_INTERRUPT) {
        current := Some(c.(state := Complete));
        return ErrorStatus(error);
      }
      if !(Has(normal, DMA_INTERRUPT) || Has(normal, TRANSFER_COMPLETE)) {
        current := Some(c.(state := Complete));
        return IOError;
      }
      if r.blockCount != 0 && r.isRead {
        if r.argument == 0 {
          doubleBuffer := doubleBuffer[0x1FE := 0][0x1FF := 0];
        }
        current := Some(c.(data := Written(c.data, c.offset - c.segment, doubleBuffer[..c.segment])));
        assert current.value.data == Written(r.data, r.offset, doubleBuffer[..c.segment]);
      }
      status := Success;
      if Has(normal, TRANSFER_COMPLETE) {
        if current.value.byteCount != r.blockCount * blockLength {
          // Some of the data is missing.
          assert false;
        }
        current := Some(current.value.(state := Complete));
        return;
      }
      if current.value.byteCount != r.blockCount * blockLength {
        // There is more data to set up.
        assert false;
      }
    }

    /** Moves the command in flight on, and completes it when it is finished. */
    method DoAsyncIO(normal: nat, error: nat, ghost depth: nat)
      requires Ordered() && Accounted() && current.Some?
      requires current.value == Fresh(current.value.request) || (InFlight(current.value, blockLength) && Timed())
      modifies this
      ensures Valid() && Quiet() && Timed() && owed == old(owed) && external == old(external)
      ensures Progress(0, depth)
      ensures if old(current).value.state == Started then Dispatched(old(current).value.request)
              else Answered(normal, error)
      decreases Load(), 2
    {
      hide Received, Finishes, Outcome, InFlight, Balanced, Requests, FollowUps, Fits;
      var status := StepCommand(normal, error);
      if current.value.state == Complete {
        CompleteIO(status, depth);
      }
    }

    /** One step of the command in flight. */
    method StepCommand(normal: nat, error: nat) returns (status: Status)
      requires current.Some? && Fits(current.value.request, blockLength) && |doubleBuffer| == DOUBLE_BUFFER
      requires current.value == Fresh(current.value.request) || InFlight(current.value, blockLength)
      modifies this`current, this`doubleBuffer, this`timeoutRemaining
      ensures current.Some? && current.value.request == old(current).value.request && |doubleBuffer| == DOUBLE_BUFFER
      ensures current.value.state != Complete ==> InFlight(current.value, blockLength)
      ensures current.value.state != Complete && (old(Timed()) || old(current).value.state == Started) ==> Timed()
      ensures var c := old(current).value; c.state != Started ==>
        (current.value.state == (if Finishes(c, normal, error) then Complete else DataTx)
         && (Finishes(c, normal, error) ==> status == Outcome(c, normal, error))
         && current.value == c.(state := current.value.state,
                                data := Received(c, normal, error, old(doubleBuffer), blockLength)))
      ensures old(current).value.state == Started ==> Issued(old(current).value.request, status, old(doubleBuffer))
    {
      hide InFlight, Issued, Written, Unsigned;
      var c := current.value;
      PhaseOf(c, blockLength);
      if c.state == Started {
        status := IssueCommand();
      } else if c.state == Cmd {
        var more;
        status, more := FinishCommandPhase(normal, error);
        if more {
          status := FinishDataPhase(normal, error);
        }
      } else {
        status := FinishDataPhase(normal, error);
      }
    }

    static lemma PhaseOf(c: Command, blockLength: nat)
      ensures InFlight(c, blockLength) ==> c.state == Cmd || c.state == DataTx
      ensures InFlight(c, blockLength) && c.state == DataTx ==> c.request.hasBuffer
    {
    }

    /** What issuing a command leaves: it waits for the controller, its bytes in the double buffer if it
        writes; or it has failed because the controller stays inhibited or the buffer is too small. */
    ghost predicate Issued(r: Request, status: Status, double: seq<nat>)
      reads this`current, this`doubleBuffer
    {
      && current.Some? && current.value.request == r && current.value.data == r.data
      && var small := r.hasBuffer && |r.data| < r.blockCount * blockLength;
        if status == Success then
          && current.value.state == Cmd && !small && |doubleBuffer| == |double|
          && current.value.index == (if r.hasBuffer && r.blockCount == 0 then READ_SINGLE_BLOCK else r.index)
          && forall i :: 0 <= i < |double| ==>
               doubleBuffer[i] == if r.hasBuffer && !r.isRead && i < r.blockCount * blockLength
                                     && r.offset + i < |r.data| then r.data[r.offset + i] else double[i]
        else current.value.state == Complete && (status == Timeout || (status == NoMemory && small))
    }

    // -------------------------------------------------------------- interrupts and the watchdog

    /** The controller stores data it has read from the card. */
    method DmaWrites(bytes: seq<nat>)
      requires Valid() && |bytes| == DOUBLE_BUFFER
      modifies this`doubleBuffer
      ensures Valid() && doubleBuffer == bytes
    {
      doubleBuffer := bytes;
    }

    /** Acknowledges an interrupt and moves the command in flight on. */
    method ServiceInterruptStatus(raw: nat)
      requires Valid() && Quiet()
      modifies this
      ensures Valid() && Quiet() && owed == old(owed) && external == old(external)
      ensures Progress(0, 0)
      ensures raw == 0 || old(current).None? ==> current == old(current) && completed == old(completed)
      ensures raw == 0 || old(current).None? ==> timeoutRemaining == old(timeoutRemaining)
      ensures raw != 0 && old(current).Some? ==> Timed() && Answered(raw % 0x10000, raw / 0x10000 % 0x10000)
    {
      if raw == 0 {
        return;
      }
      var normal, error := raw % 0x10000, raw / 0x10000 % 0x10000;
      if current.Some? {
        timeoutRemaining := COMMAND_TIMEOUT_US;
        DoAsyncIO(normal, error, 0);
      }
    }

    /** A firing of the watchdog, which reads the interrupt status once at the start and, if it gives
        up on the command, once more. */
    method CommandWatchdogFired(raw: nat, rawAtEnd: nat)
      requires Valid() && Quiet()
      modifies this
      ensures Valid() && Quiet() && owed == old(owed) && external == old(external)
      ensures Progress(0, 0)
      ensures raw == 0 && old(current).Some? && old(timeoutRemaining) > WATCHDOG_US ==>
        current == old(current) && timeoutRemaining == old(timeoutRemaining) - WATCHDOG_US
          && completed == old(completed)
      ensures raw == 0 && old(current).Some? && old(timeoutRemaining) <= WATCHDOG_US ==>
        (|completed| > |old(completed)|
         && completed[|old(completed)|] == Completion(old(current).value.request,
              if rawAtEnd / 0x10000 % 0x10000 != 0 then ErrorStatus(rawAtEnd / 0x10000 % 0x10000) else Timeout,
              old(current).value.data))
      ensures raw != 0 && old(current).Some? && current.Some? ==> timeoutRemaining == COMMAND_TIMEOUT_US - WATCHDOG_US
      ensures raw != 0 && old(current).Some? ==> Answered(raw % 0x10000, raw / 0x10000 % 0x10000)
      ensures old(current).None? ==> current == old(current) && queue == old(queue) && completed == old(completed)
    {
      hide Balanced, InFlight, Requests, Size, TotalSize, Has, ErrorStatus, FollowUps;
      if current.None? {
        return;
      }
      if raw != 0 {
        ServiceInterruptStatus(raw);
        if current.None? {
          return;
        }
      }
      if timeoutRemaining <= WATCHDOG_US {
        var error := rawAtEnd / 0x10000 % 0x10000;
        var status := StatusFromError(error);
        if status == Success {
          status := Timeout;
        }
        current := Some(current.value.(state := Complete));
        CompleteIO(status, 0);
        return;
      }
      timeoutRemaining := timeoutRemaining - WATCHDOG_US;
    }

    /** Firings of the watchdog while the command in flight raises no interrupt: 4999 leave it as it is,
        and the 5000th ends it with the pending error, or with a timeout when there is none. */
    method SilentFirings(rawAtEnd: seq<nat>)
      requires Valid() && Quiet() && Timed() && current.Some? && |rawAtEnd| <= 5000
      modifies this
      ensures Valid() && Quiet() && owed == old(owed) && external == old(external)
      ensures |rawAtEnd| < 5000 ==> current == old(current) && completed == old(completed)
      ensures |rawAtEnd| < 5000 ==> timeoutRemaining == 5_000_000 - 1000 * |rawAtEnd|
      ensures |rawAtEnd| == 5000 ==>
        (|completed| > |old(completed)| && completed[..|old(completed)|] == old(completed)
         && (var error := rawAtEnd[4999] / 0x10000 % 0x10000;
             completed[|old(completed)|] == Completion(old(current).value.request,
               if error != 0 then ErrorStatus(error) else Timeout, old(current).value.data)))
    {
      hide Balanced, InFlight, Ordered, Accounted, ErrorStatus;
      for k := 0 to |rawAtEnd|
        invariant Valid() && Quiet() && owed == old(owed) && external == old(external)
        invariant k < 5000 ==> current == old(current) && completed == old(completed)
        invariant k < 5000 ==> timeoutRemaining == COMMAND_TIMEOUT_US - WATCHDOG_US * k
        invariant k == 5000 ==>
          (|completed| > |old(completed)| && completed[..|old(completed)|] == old(completed)
           && (var error := rawAtEnd[4999] / 0x10000 % 0x10000;
               completed[|old(completed)|] == Completion(old(current).value.request,
                 if error != 0 then ErrorStatus(error) else Timeout, old(current).value.data)))
      {
        CommandWatchdogFired(0, rawAtEnd[k]);
      }
    }
  }

  function StatusFromError(error: nat): (status: Status)
    ensures status == if error == 0 then Success else ErrorStatus(error)
  {
    if Has(error, COMMAND_TIMED_OUT) || Has(error, DATA_TIMED_OUT) then Timeout
    else if error != 0 then IOError
    else Success
  }

  // ---------------------------------------------------------------- consequences

  /** When callbacks submit nothing, the work outstanding is the length of the queue and the command in
      flight, which therefore bounds the nesting of completions. */
  lemma {:induction false} WorkOfLeaves(queue: seq<Request>)
    requires forall i :: 0 <= i < |queue| ==> queue[i].followUps == []
    ensures TotalSize(queue) == |queue|
  {
    if queue != [] {
      assert Size(queue[0]) == 1 + SizeFrom(queue[0], 0);
      assert forall i :: 0 <= i < |queue[1..]| ==> queue[1..][i] == queue[i + 1];
      WorkOfLeaves(queue[1..]);
    }
  }

  /** A read that covers its whole buffer leaves in it exactly the double buffer's bytes, the signature
      bytes of block 0 zeroed. */
  lemma ReadLeaves(r: Request, double: seq<nat>, n: nat, i: nat)
    requires |double| == DOUBLE_BUFFER && n <= DOUBLE_BUFFER && r.offset + n <= |r.data| && i < |r.data|
    ensures Written(r.data, r.offset, Unsigned(double, r.argument)[..n])[i]
      == if i < r.offset || i >= r.offset + n then r.data[i]
         else if r.argument == 0 && 0x1FE <= i - r.offset <= 0x1FF then 0
         else double[i - r.offset]
  {
  }
}
