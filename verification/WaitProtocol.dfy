/**
 * Waiting for results over event streams, C# form: a pending set per bucket,
 * reconnection with a narrowed filter, a bounded retry counter, abort reports, and
 * buckets that run interleaved under one cancellation source.
 */
module WaitProtocol {
  import opened Basics
  import opened Chunking

  datatype ResultStatus = Unspecified | Created | Completed | Aborted | Deleted | NotFound

  /** The two updates that carry a result status; every other update is irrelevant here. */
  datatype Event =
    | ResultStatusUpdate(resultId: string, status: ResultStatus)
    | NewResult(resultId: string, status: ResultStatus)
    | OtherUpdate

  predicate IsStatus(e: Event, id: string, status: ResultStatus) {
    !e.OtherUpdate? && e.resultId == id && e.status == status
  }

  /** What the environment answers at each point where the loop reads or awaits something. */
  datatype Input =
    | LoopCheck(cancelled: bool)
    | HeadersReceived
    | Received(event: Event)
    | StreamEnded
    | RpcFailure
    | OperationCanceled(cancelled: bool)

  datatype Failure =
    | ResultAborted(abortedId: string, completedIds: seq<string>, remainingIds: set<string>)
    | RpcError
    | ForeignCancellation

  /** Where a bucket stands: at its loop condition, awaiting headers, reading, or over. */
  datatype Phase = AtLoop | Connecting | Reading | Returned | Failed(failure: Failure)

  datatype Wait = Wait(
    notFound: set<string>,
    completed: seq<string>,
    retryCount: nat,
    subscriptions: seq<set<string>>,
    phase: Phase)

  const MAX_RETRIES: nat := 5

  function Start(bucket: set<string>): Wait { Wait(bucket, [], 0, [], AtLoop) }

  predicate Enabled(w: Wait, input: Input) {
    match w.phase
    case AtLoop => input.LoopCheck?
    case Connecting => input.HeadersReceived? || input.RpcFailure? || input.OperationCanceled?
    case Reading => input.Received? || input.StreamEnded? || input.RpcFailure? || input.OperationCanceled?
    case _ => false
  }

  function Seen(w: Wait, id: string, status: ResultStatus): Wait {
    if id !in w.notFound then w
    else if status == Completed then
      var left := w.notFound - {id};
      w.(completed := w.completed + [id], notFound := left, phase := if left == {} then AtLoop else Reading)
    else if status == Aborted then w.(phase := Failed(ResultAborted(id, w.completed, w.notFound)))
    else w
  }

  function Step(w: Wait, input: Input): Wait
    requires Enabled(w, input)
  {
    match input
    case LoopCheck(cancelled) =>
      if w.notFound == {} || cancelled then w.(phase := Returned)
      else w.(subscriptions := w.subscriptions + [w.notFound], phase := Connecting)
    case HeadersReceived => w.(retryCount := 0, phase := Reading)
    case Received(e) => if e.OtherUpdate? then w else Seen(w, e.resultId, e.status)
    case StreamEnded => w.(phase := AtLoop)
    case RpcFailure =>
      w.(retryCount := w.retryCount + 1, phase := if w.retryCount + 1 > MAX_RETRIES then Failed(RpcError) else AtLoop)
    case OperationCanceled(cancelled) => w.(phase := if cancelled then Returned else Failed(ForeignCancellation))
  }

  /** The environment only answers what the loop asks. */
  predicate Feasible(w: Wait, inputs: seq<Input>)
    decreases |inputs|
  {
    inputs == [] || (Enabled(w, inputs[0]) && Feasible(Step(w, inputs[0]), inputs[1..]))
  }

  function After(w: Wait, inputs: seq<Input>): Wait
    requires Feasible(w, inputs)
    decreases |inputs|
  {
    if inputs == [] then w else After(Step(w, inputs[0]), inputs[1..])
  }

  lemma Advance(w: Wait, inputs: seq<Input>, i: nat)
    requires i < |inputs| && Feasible(w, inputs[i..])
    ensures Enabled(w, inputs[i]) && Feasible(Step(w, inputs[i]), inputs[i + 1..])
    ensures After(w, inputs[i..]) == After(Step(w, inputs[i]), inputs[i + 1..])
  {
  }

  /** Nothing happens after the end. */
  lemma Over(w: Wait, inputs: seq<Input>)
    requires Feasible(w, inputs) && (w.phase.Returned? || w.phase.Failed? || inputs == [])
    ensures After(w, inputs) == w
  {
  }

  // ---------------------------------------------------------------- the loop itself

  class BucketWaiter {
    var resultsCompleted: seq<string>
    var resultsNotFound: set<string>
    var retryCount: nat
    var subscriptions: seq<set<string>>

    constructor (results: set<string>)
      ensures State(AtLoop) == Start(results)
    {
      resultsCompleted := [];
      resultsNotFound := results;
      retryCount := 0;
      subscriptions := [];
    }

    function State(phase: Phase): Wait
      reads this
    {
      Wait(resultsNotFound, resultsCompleted, retryCount, subscriptions, phase)
    }

    /** One event; `leave` is the break out of the read loop. */
    method OnEvent(e: Event) returns (leave: bool, failure: Option<Failure>)
      modifies this
      ensures State(if failure.Some? then Failed(failure.value) else if leave then AtLoop else Reading)
              == Step(old(State(Reading)), Received(e))
      ensures leave ==> failure.None?
    {
      leave, failure := false, None;
      if e.ResultStatusUpdate? && e.resultId in resultsNotFound {
        if e.status == Completed {
          resultsCompleted := resultsCompleted + [e.resultId];
          resultsNotFound := resultsNotFound - {e.resultId};
          if resultsNotFound == {} {
            leave := true;
            return;
          }
        } else if e.status == Aborted {
          failure := Some(ResultAborted(e.resultId, resultsCompleted, resultsNotFound));
          return;
        }
      }
      if e.NewResult? && e.resultId in resultsNotFound {
        if e.status == Completed {
          resultsCompleted := resultsCompleted + [e.resultId];
          resultsNotFound := resultsNotFound - {e.resultId};
          if resultsNotFound == {} {
            leave := true;
            return;
          }
        } else if e.status == Aborted {
          failure := Some(ResultAborted(e.resultId, resultsCompleted, resultsNotFound));
          return;
        }
      }
    }

    /** Runs as far as the answers in `inputs` reach; the nested loops are the source's. */
    method Run(inputs: seq<Input>) returns (phase: Phase)
      requires Feasible(State(AtLoop), inputs)
      modifies this
      ensures State(phase) == After(old(State(AtLoop)), inputs)
    {
      ghost var end := After(State(AtLoop), inputs);
      var i := 0;
      assert inputs[0..] == inputs;
      while true
        invariant 0 <= i <= |inputs|
        invariant Feasible(State(AtLoop), inputs[i..]) && After(State(AtLoop), inputs[i..]) == end
        decreases |inputs| - i
      {
        if i == |inputs| {
          return AtLoop;
        }
        Advance(State(AtLoop), inputs, i);
        if resultsNotFound == {} || inputs[i].cancelled {
          Over(State(Returned), inputs[i + 1..]);
          return Returned;
        }
        i := i + 1;
        subscriptions := subscriptions + [resultsNotFound];
        if i == |inputs| {
          return Connecting;
        }
        Advance(State(Connecting), inputs, i);
        var caught := inputs[i];
        i := i + 1;
        if caught.HeadersReceived? {
          retryCount := 0;
          phase, i, caught := ReadEvents(inputs, i);
          if phase != AtLoop {
            return;
          }
        }
        if caught.RpcFailure? || caught.OperationCanceled? {
          phase := Catch(caught);
          if phase != AtLoop {
            Over(State(phase), inputs[i..]);
            return;
          }
        }
      }
    }

    /** The two catch clauses; AtLoop means the exception is swallowed and the loop goes on. */
    method Catch(caught: Input) returns (phase: Phase)
      requires caught.RpcFailure? || caught.OperationCanceled?
      modifies this
      ensures State(phase) == Step(old(State(Reading)), caught) == Step(old(State(Connecting)), caught)
      ensures phase == AtLoop || phase.Returned? || phase.Failed?
    {
      match caught {
        case OperationCanceled(cancelled) =>
          phase := if cancelled then Returned else Failed(ForeignCancellation);
        case RpcFailure =>
          retryCount := retryCount + 1;
          phase := if retryCount > MAX_RETRIES then Failed(RpcError) else AtLoop;
      }
    }

    /** The inner loop: reads until a break, or until an exception the outer loop catches. */
    method ReadEvents(inputs: seq<Input>, from: nat) returns (phase: Phase, i: nat, caught: Input)
      requires from <= |inputs| && Feasible(State(Reading), inputs[from..])
      modifies this
      ensures from <= i <= |inputs|
      ensures phase != AtLoop ==> State(phase) == After(old(State(Reading)), inputs[from..])
      ensures phase == AtLoop ==>
        var w := State(if caught.RpcFailure? || caught.OperationCanceled? then Reading else AtLoop);
        if caught.RpcFailure? || caught.OperationCanceled? then
          && Feasible(Step(w, caught), inputs[i..])
          && After(Step(w, caught), inputs[i..]) == After(old(State(Reading)), inputs[from..])
        else
          Feasible(w, inputs[i..]) && After(w, inputs[i..]) == After(old(State(Reading)), inputs[from..])
    {
      ghost var end := After(State(Reading), inputs[from..]);
      i := from;
      caught := StreamEnded;
      while true
        invariant from <= i <= |inputs|
        invariant Feasible(State(Reading), inputs[i..]) && After(State(Reading), inputs[i..]) == end
        decreases |inputs| - i
      {
        if i == |inputs| {
          Over(State(Reading), inputs[i..]);
          return Reading, i, caught;
        }
        Advance(State(Reading), inputs, i);
        caught := inputs[i];
        i := i + 1;
        if !caught.Received? {
          return AtLoop, i, caught;
        }
        var leave, failure := OnEvent(caught.event);
        if failure.Some? {
          Over(State(Failed(failure.value)), inputs[i..]);
          return Failed(failure.value), i, caught;
        }
        if leave {
          return AtLoop, i, caught;
        }
      }
    }
  }

  // ---------------------------------------------------------------- what every run keeps

  /** The ids some received event reported completed. */
  function CompletedIds(log: seq<Input>): set<string> {
    if log == [] then {}
    else
      var last := log[|log| - 1];
      CompletedIds(log[..|log| - 1])
      + if last.Received? && !last.event.OtherUpdate? && last.event.status == Completed
        then {last.event.resultId} else {}
  }

  function FailuresSinceHeaders(log: seq<Input>): nat {
    if log == [] || log[|log| - 1].HeadersReceived? then 0
    else FailuresSinceHeaders(log[..|log| - 1]) + if log[|log| - 1].RpcFailure? then 1 else 0
  }

  function Openings(log: seq<Input>): nat {
    if log == [] then 0
    else Openings(log[..|log| - 1]) + if log[|log| - 1].HeadersReceived? then 1 else 0
  }

  function Elements(s: seq<string>): set<string> { set x | x in s }

  /** Pending and completed ids partition the bucket, and the log alone decides which is which. */
  ghost predicate Conserved(bucket: set<string>, w: Wait, log: seq<Input>) {
    && w.notFound == bucket - CompletedIds(log)
    && Elements(w.completed) == bucket * CompletedIds(log)
    && Distinct(w.completed)
  }

  /** A subscription asks for everything pending and nothing completed before it. */
  ghost predicate Narrowed(w: Wait) {
    && (forall i :: 0 <= i < |w.subscriptions| ==> w.notFound <= w.subscriptions[i] && w.subscriptions[i] != {})
    && (forall i, j :: 0 <= i <= j < |w.subscriptions| ==> w.subscriptions[j] <= w.subscriptions[i])
    && (w.phase.Connecting? ==> |w.subscriptions| > 0 && w.subscriptions[|w.subscriptions| - 1] == w.notFound)
  }

  ghost predicate Bounded(w: Wait, log: seq<Input>) {
    && w.retryCount == FailuresSinceHeaders(log)
    && w.retryCount <= MAX_RETRIES + 1
    && (w.retryCount == MAX_RETRIES + 1 <==> w.phase == Failed(RpcError))
    && |w.subscriptions| <= (MAX_RETRIES + 1) * Openings(log) + w.retryCount + (if w.phase.Connecting? then 1 else 0)
       + (if w.phase == Returned || w.phase == Failed(ForeignCancellation) then 1 else 0)
  }

  ghost predicate Honest(w: Wait, log: seq<Input>) {
    match w.phase
    case Failed(ResultAborted(id, completed, remaining)) =>
      && id in w.notFound && completed == w.completed && remaining == w.notFound
      && log != [] && log[|log| - 1].Received? && IsStatus(log[|log| - 1].event, id, Aborted)
    case Returned =>
      && log != []
      && (w.notFound == {} || log[|log| - 1] == LoopCheck(true) || log[|log| - 1] == OperationCanceled(true))
    case Reading => w.notFound != {}
    case Connecting => w.notFound != {}
    case _ => true
  }

  ghost predicate Inv(bucket: set<string>, w: Wait, log: seq<Input>) {
    Conserved(bucket, w, log) && Narrowed(w) && Bounded(w, log) && Honest(w, log)
  }

  lemma StepConserves(bucket: set<string>, w: Wait, log: seq<Input>, input: Input)
    requires Conserved(bucket, w, log) && Enabled(w, input)
    ensures Conserved(bucket, Step(w, input), log + [input])
  {
    var w', log' := Step(w, input), log + [input];
    assert log'[..|log'| - 1] == log;
    if input.Received? && !input.event.OtherUpdate? && input.event.status == Completed {
      var id := input.event.resultId;
      if id in w.notFound {
        assert id !in Elements(w.completed);
        assert Elements(w'.completed) == Elements(w.completed) + {id};
      }
    }
  }

  lemma StepKeepsInv(bucket: set<string>, w: Wait, log: seq<Input>, input: Input)
    requires Inv(bucket, w, log) && Enabled(w, input)
    ensures Inv(bucket, Step(w, input), log + [input])
  {
    var log' := log + [input];
    assert log'[..|log'| - 1] == log;
    StepConserves(bucket, w, log, input);
  }

  lemma {:induction false} AfterSnoc(w: Wait, inputs: seq<Input>)
    requires inputs != [] && Feasible(w, inputs)
    ensures var n := |inputs| - 1;
      && Feasible(w, inputs[..n]) && Enabled(After(w, inputs[..n]), inputs[n])
      && After(w, inputs) == Step(After(w, inputs[..n]), inputs[n])
    decreases |inputs|
  {
    var n := |inputs| - 1;
    if n > 0 {
      AfterSnoc(Step(w, inputs[0]), inputs[1..]);
      assert inputs[1..][..n - 1] == inputs[..n][1..];
    }
  }

  /** Through any interleaving of events, stream ends, failures and reconnections of one bucket. */
  lemma {:induction false} EveryRunKeepsInv(bucket: set<string>, inputs: seq<Input>)
    requires Feasible(Start(bucket), inputs)
    ensures Inv(bucket, After(Start(bucket), inputs), inputs)
    decreases |inputs|
  {
    if inputs != [] {
      var n := |inputs| - 1;
      AfterSnoc(Start(bucket), inputs);
      EveryRunKeepsInv(bucket, inputs[..n]);
      StepKeepsInv(bucket, After(Start(bucket), inputs[..n]), inputs[..n], inputs[n]);
      assert inputs[..n] + [inputs[n]] == inputs;
    }
  }

  /** Retry bound: five failures are swallowed after the last headers, the sixth is rethrown, attempts stay linear. */
  lemma RetryBound(bucket: set<string>, inputs: seq<Input>)
    requires Feasible(Start(bucket), inputs)
    ensures After(Start(bucket), inputs).phase == Failed(RpcError) <==> FailuresSinceHeaders(inputs) == 6
    ensures FailuresSinceHeaders(inputs) <= 6
    ensures |After(Start(bucket), inputs).subscriptions| <= 6 * (Openings(inputs) + 1)
  {
    EveryRunKeepsInv(bucket, inputs);
  }

  /** Every connection, first or later, asks for exactly the ids of the bucket not yet reported completed. */
  lemma SubscriptionIsPending(bucket: set<string>, inputs: seq<Input>)
    requires Feasible(Start(bucket), inputs) && After(Start(bucket), inputs).phase == Connecting
    ensures var subs := After(Start(bucket), inputs).subscriptions;
      && |subs| > 0 && subs[|subs| - 1] == bucket - CompletedIds(inputs) != {}
      && forall i :: 0 <= i < |subs| ==> subs[|subs| - 1] <= subs[i] <= bucket
  {
    EveryRunKeepsInv(bucket, inputs);
    var w := After(Start(bucket), inputs);
    SubscriptionsWithinBucket(bucket, inputs);
  }

  lemma {:induction false} SubscriptionsWithinBucket(bucket: set<string>, inputs: seq<Input>)
    requires Feasible(Start(bucket), inputs)
    ensures forall i :: 0 <= i < |After(Start(bucket), inputs).subscriptions| ==>
      After(Start(bucket), inputs).subscriptions[i] <= bucket
    decreases |inputs|
  {
    if inputs != [] {
      AfterSnoc(Start(bucket), inputs);
      SubscriptionsWithinBucket(bucket, inputs[..|inputs| - 1]);
      EveryRunKeepsInv(bucket, inputs[..|inputs| - 1]);
    }
  }

  // ---------------------------------------------------------------- how a bucket stands, told on its answers

  predicate IsAbort(e: Event) { !e.OtherUpdate? && e.status == Aborted }

  /** Answer k reports aborted an id that no earlier answer reported completed. */
  predicate AbortsAt(bucket: set<string>, inputs: seq<Input>, k: nat)
    requires k < |inputs|
  {
    && inputs[k].Received? && IsAbort(inputs[k].event)
    && inputs[k].event.resultId in bucket - CompletedIds(inputs[..k])
  }

  /** The last answer does. */
  predicate EndsInAbort(bucket: set<string>, inputs: seq<Input>) {
    inputs != [] && AbortsAt(bucket, inputs, |inputs| - 1)
  }

  predicate EndsIn(inputs: seq<Input>, last: Input) { inputs != [] && inputs[|inputs| - 1] == last }

  /** A run is an answer longer than the run before it, whose last answer the loop was asking for. */
  lemma LastStep(bucket: set<string>, inputs: seq<Input>) returns (before: Wait)
    requires inputs != [] && Feasible(Start(bucket), inputs)
    ensures var n := |inputs| - 1;
      && Feasible(Start(bucket), inputs[..n]) && before == After(Start(bucket), inputs[..n])
      && Inv(bucket, before, inputs[..n]) && Enabled(before, inputs[n])
      && After(Start(bucket), inputs) == Step(before, inputs[n])
  {
    var n := |inputs| - 1;
    AfterSnoc(Start(bucket), inputs);
    EveryRunKeepsInv(bucket, inputs[..n]);
    before := After(Start(bucket), inputs[..n]);
  }

  /**
   * An abort is raised exactly by an event that reports it for an id still pending, and
   * then at once, with that id and the ids still pending.
   */
  lemma AbortIffReported(bucket: set<string>, inputs: seq<Input>)
    requires Feasible(Start(bucket), inputs)
    ensures var p := After(Start(bucket), inputs).phase;
      && (p.Failed? && p.failure.ResultAborted? <==> EndsInAbort(bucket, inputs))
      && (EndsInAbort(bucket, inputs) ==>
            p.failure == ResultAborted(inputs[|inputs| - 1].event.resultId, After(Start(bucket), inputs).completed,
                                       bucket - CompletedIds(inputs)))
  {
    if inputs != [] {
      var before := LastStep(bucket, inputs);
      EveryRunKeepsInv(bucket, inputs);
    }
  }

  /** A wait returns exactly at its loop condition, cancelled or with nothing pending, or on its own cancellation. */
  lemma ReturnIff(bucket: set<string>, inputs: seq<Input>)
    requires Feasible(Start(bucket), inputs)
    ensures var p := After(Start(bucket), inputs).phase;
      && (p == Returned <==>
            || EndsIn(inputs, LoopCheck(true)) || EndsIn(inputs, OperationCanceled(true))
            || (EndsIn(inputs, LoopCheck(false)) && bucket <= CompletedIds(inputs)))
      && (p == Failed(ForeignCancellation) <==> EndsIn(inputs, OperationCanceled(false)))
  {
    if inputs != [] {
      var before := LastStep(bucket, inputs);
      EveryRunKeepsInv(bucket, inputs);
    }
  }

  /**
   * Otherwise it goes on: it connects after its loop condition, reads after headers and after
   * events, and is back at its loop condition after a stream end, a swallowed failure, or the
   * event that completes the last pending id.
   */
  lemma GoesOnIff(bucket: set<string>, inputs: seq<Input>)
    requires Feasible(Start(bucket), inputs) && inputs != []
    ensures var p, last := After(Start(bucket), inputs).phase, inputs[|inputs| - 1];
      && (p == Connecting <==> last == LoopCheck(false) && !(bucket <= CompletedIds(inputs)))
      && (p == Reading <==>
            || last == HeadersReceived
            || (last.Received? && !EndsInAbort(bucket, inputs) && !(bucket <= CompletedIds(inputs))))
      && (p == AtLoop <==>
            || last == StreamEnded
            || (last == RpcFailure && FailuresSinceHeaders(inputs) <= 5)
            || (last.Received? && bucket <= CompletedIds(inputs)))
  {
    var before := LastStep(bucket, inputs);
    EveryRunKeepsInv(bucket, inputs);
  }

  /** The list of completed ids only grows at its end: it is in the order of the first reports. */
  lemma {:induction false} CompletedInOrder(bucket: set<string>, inputs: seq<Input>, n: nat)
    requires Feasible(Start(bucket), inputs) && n <= |inputs|
    ensures Feasible(Start(bucket), inputs[..n])
    ensures After(Start(bucket), inputs[..n]).completed <= After(Start(bucket), inputs).completed
    ensures Elements(After(Start(bucket), inputs[..n]).completed) == bucket * CompletedIds(inputs[..n])
    decreases |inputs|
  {
    if n == |inputs| {
      assert inputs[..n] == inputs;
      EveryRunKeepsInv(bucket, inputs);
    } else {
      var m := |inputs| - 1;
      var before := LastStep(bucket, inputs);
      CompletedInOrder(bucket, inputs[..m], n);
      assert inputs[..m][..n] == inputs[..n];
    }
  }

  // ---------------------------------------------------------------- order of events

  lemma {:induction false} CompletedIdsMember(log: seq<Input>, id: string)
    ensures id in CompletedIds(log) <==> exists e :: Received(e) in log && IsStatus(e, id, Completed)
  {
    if log != [] {
      var n := |log| - 1;
      CompletedIdsMember(log[..n], id);
      assert log == log[..n] + [log[n]];
      if id in CompletedIds(log) {
        if id in CompletedIds(log[..n]) {
          var e :| Received(e) in log[..n] && IsStatus(e, id, Completed);
          assert Received(e) in log;
        } else {
          assert Received(log[n].event) in log && IsStatus(log[n].event, id, Completed);
        }
      }
    }
  }

  /** Order, repetition, foreign ids and reconnections leave no trace: equal sets of events, equal pending sets. */
  lemma OrderIsIrrelevant(bucket: set<string>, a: seq<Input>, b: seq<Input>)
    requires Feasible(Start(bucket), a) && Feasible(Start(bucket), b)
    requires forall e :: Received(e) in a <==> Received(e) in b
    ensures After(Start(bucket), a).notFound == After(Start(bucket), b).notFound == bucket - CompletedIds(a)
    ensures Elements(After(Start(bucket), a).completed) == Elements(After(Start(bucket), b).completed)
  {
    EveryRunKeepsInv(bucket, a);
    EveryRunKeepsInv(bucket, b);
    forall id
      ensures id in CompletedIds(a) <==> id in CompletedIds(b)
    {
      CompletedIdsMember(a, id);
      CompletedIdsMember(b, id);
    }
    assert CompletedIds(a) == CompletedIds(b);
  }

  // ---------------------------------------------------------------- all buckets under one cancellation source

  /** `cts` is the linked source: cancelled by the caller, or by the handler of a bucket's exception. */
  datatype Call = Call(buckets: seq<Wait>, cts: bool)

  datatype Move = InBucket(b: nat, input: Input) | Cancel

  /** The buckets: consecutive chunks of the requested ids, each turned into a set. */
  function Buckets(ids: seq<string>, bucketSize: nat): (bs: seq<set<string>>)
    requires bucketSize > 0
    ensures |bs| == |Chunks(ids, bucketSize)|
  {
    var cs := Chunks(ids, bucketSize);
    seq(|cs|, i requires 0 <= i < |cs| => Elements(cs[i]))
  }

  /** Bucket i holds the ids from i * size on, and there are as few buckets as can be. */
  lemma BucketsBySize(ids: seq<string>, size: nat)
    requires size > 0
    ensures |Buckets(ids, size)| == CeilDiv(|ids|, size)
    ensures forall i :: 0 <= i < |Buckets(ids, size)| ==> Buckets(ids, size)[i] == Elements(Piece(ids, size, i))
  {
    ChunksIsChunking(ids, size);
    forall i | 0 <= i < |Buckets(ids, size)|
      ensures Buckets(ids, size)[i] == Elements(Piece(ids, size, i))
    {
      ChunkIsPiece(ids, size, i);
    }
  }

  function StartCall(bs: seq<set<string>>): Call {
    Call(seq(|bs|, i requires 0 <= i < |bs| => Start(bs[i])), false)
  }

  predicate CanMove(c: Call, m: Move) {
    match m
    case Cancel => true
    case InBucket(b, input) =>
      && b < |c.buckets| && Enabled(c.buckets[b], input)
      && (input.LoopCheck? || input.OperationCanceled? ==> input.cancelled == c.cts)
  }

  function DoMove(c: Call, m: Move): Call
    requires CanMove(c, m)
  {
    match m
    case Cancel => c.(cts := true)
    case InBucket(b, input) => c.(buckets := c.buckets[b := Step(c.buckets[b], input)])
  }

  predicate FeasibleCall(c: Call, moves: seq<Move>)
    decreases |moves|
  {
    moves == [] || (CanMove(c, moves[0]) && FeasibleCall(DoMove(c, moves[0]), moves[1..]))
  }

  function AfterCall(c: Call, moves: seq<Move>): Call
    requires FeasibleCall(c, moves)
    decreases |moves|
  {
    if moves == [] then c else AfterCall(DoMove(c, moves[0]), moves[1..])
  }

  /** What bucket b saw of a run. */
  function LogOf(moves: seq<Move>, b: nat): seq<Input> {
    if moves == [] then []
    else
      var last := moves[|moves| - 1];
      LogOf(moves[..|moves| - 1], b) + if last.InBucket? && last.b == b then [last.input] else []
  }

  lemma {:induction false} AfterCallSnoc(c: Call, moves: seq<Move>)
    requires moves != [] && FeasibleCall(c, moves)
    ensures var n := |moves| - 1;
      && FeasibleCall(c, moves[..n]) && CanMove(AfterCall(c, moves[..n]), moves[n])
      && AfterCall(c, moves) == DoMove(AfterCall(c, moves[..n]), moves[n])
    decreases |moves|
  {
    var n := |moves| - 1;
    if n > 0 {
      AfterCallSnoc(DoMove(c, moves[0]), moves[1..]);
      assert moves[1..][..n - 1] == moves[..n][1..];
    }
  }

  lemma {:induction false} FeasibleSnoc(w: Wait, inputs: seq<Input>, input: Input)
    requires Feasible(w, inputs) && Enabled(After(w, inputs), input)
    ensures Feasible(w, inputs + [input]) && After(w, inputs + [input]) == Step(After(w, inputs), input)
    decreases |inputs|
  {
    if inputs == [] {
      assert [] + [input] == [input];
    } else {
      FeasibleSnoc(Step(w, inputs[0]), inputs[1..], input);
      assert (inputs + [input])[1..] == inputs[1..] + [input];
    }
  }

  /** Buckets do not disturb each other: each stands where a wait of its own, with its own answers, stands. */
  lemma {:induction false} BucketRunsAlone(bs: seq<set<string>>, moves: seq<Move>, b: nat)
    requires FeasibleCall(StartCall(bs), moves) && b < |bs|
    ensures Feasible(Start(bs[b]), LogOf(moves, b))
    ensures var c := AfterCall(StartCall(bs), moves);
      |c.buckets| == |bs| && c.buckets[b] == After(Start(bs[b]), LogOf(moves, b))
    decreases |moves|
  {
    if moves != [] {
      var n := |moves| - 1;
      AfterCallSnoc(StartCall(bs), moves);
      BucketRunsAlone(bs, moves[..n], b);
      if moves[n].InBucket? && moves[n].b == b {
        FeasibleSnoc(Start(bs[b]), LogOf(moves[..n], b), moves[n].input);
      } else {
        assert LogOf(moves, b) == LogOf(moves[..n], b);
      }
    }
  }

  /** A bucket that returned with ids pending did so because the source was cancelled. */
  ghost predicate EarlyReturnsAreCancelled(c: Call) {
    forall b :: 0 <= b < |c.buckets| && c.buckets[b].phase == Returned && c.buckets[b].notFound != {} ==> c.cts
  }

  lemma {:induction false} OnlyCancelledReturnEarly(bs: seq<set<string>>, moves: seq<Move>)
    requires FeasibleCall(StartCall(bs), moves)
    ensures EarlyReturnsAreCancelled(AfterCall(StartCall(bs), moves))
    decreases |moves|
  {
    if moves != [] {
      var n := |moves| - 1;
      AfterCallSnoc(StartCall(bs), moves);
      OnlyCancelledReturnEarly(bs, moves[..n]);
      MoveKeepsEarlyReturns(AfterCall(StartCall(bs), moves[..n]), moves[n]);
    }
  }

  lemma MoveKeepsEarlyReturns(c: Call, m: Move)
    requires EarlyReturnsAreCancelled(c) && CanMove(c, m)
    ensures EarlyReturnsAreCancelled(DoMove(c, m))
  {
  }

  ghost predicate CallInv(bs: seq<set<string>>, c: Call, moves: seq<Move>) {
    && |c.buckets| == |bs|
    && (forall b :: 0 <= b < |bs| ==> Inv(bs[b], c.buckets[b], LogOf(moves, b)))
    && EarlyReturnsAreCancelled(c)
  }

  /** Under every interleaving of buckets and cancellation. */
  lemma EveryCallKeepsInv(bs: seq<set<string>>, moves: seq<Move>)
    requires FeasibleCall(StartCall(bs), moves)
    ensures CallInv(bs, AfterCall(StartCall(bs), moves), moves)
  {
    CallSize(bs, moves);
    OnlyCancelledReturnEarly(bs, moves);
    forall b | 0 <= b < |bs|
      ensures Inv(bs[b], AfterCall(StartCall(bs), moves).buckets[b], LogOf(moves, b))
    {
      BucketRunsAlone(bs, moves, b);
      EveryRunKeepsInv(bs[b], LogOf(moves, b));
    }
  }

  lemma {:induction false} CallSize(bs: seq<set<string>>, moves: seq<Move>)
    requires FeasibleCall(StartCall(bs), moves)
    ensures |AfterCall(StartCall(bs), moves).buckets| == |bs|
    decreases |moves|
  {
    if moves != [] {
      AfterCallSnoc(StartCall(bs), moves);
      CallSize(bs, moves[..|moves| - 1]);
    }
  }

  lemma {:induction false} LogOfIsFromMoves(moves: seq<Move>, b: nat, input: Input)
    requires input in LogOf(moves, b)
    ensures InBucket(b, input) in moves
    decreases |moves|
  {
    var n := |moves| - 1;
    if input in LogOf(moves[..n], b) {
      LogOfIsFromMoves(moves[..n], b, input);
    }
  }

  lemma {:induction false} SomeBucketHolds(ids: seq<string>, size: nat, id: string) returns (b: nat)
    requires size > 0 && id in ids
    ensures b < |Buckets(ids, size)| && id in Buckets(ids, size)[b]
    decreases |ids|
  {
    var first := Min(size, |ids|);
    var cs := Chunks(ids, size);
    assert ids == ids[..first] + ids[first..];
    assert cs[1..] == Chunks(ids[first..], size);
    if id in ids[..first] {
      b := 0;
      assert id in cs[0];
    } else {
      b := SomeBucketHolds(ids[first..], size, id);
      assert cs[b + 1] == Chunks(ids[first..], size)[b];
      b := b + 1;
    }
  }

  /** An uncancelled call in which every bucket returned has received a Completed event for every requested id. */
  lemma NormalReturnMeansCompleted(ids: seq<string>, bucketSize: nat, moves: seq<Move>, id: string)
    requires bucketSize > 0 && id in ids
    requires FeasibleCall(StartCall(Buckets(ids, bucketSize)), moves)
    requires var c := AfterCall(StartCall(Buckets(ids, bucketSize)), moves);
      !c.cts && forall b :: 0 <= b < |c.buckets| ==> c.buckets[b].phase == Returned
    ensures exists b, e :: InBucket(b, Received(e)) in moves && IsStatus(e, id, Completed)
  {
    var bs := Buckets(ids, bucketSize);
    EveryCallKeepsInv(bs, moves);
    var c := AfterCall(StartCall(bs), moves);
    var b := SomeBucketHolds(ids, bucketSize, id);
    assert Inv(bs[b], c.buckets[b], LogOf(moves, b));
    assert c.buckets[b].phase == Returned;
    CompletedIdsMember(LogOf(moves, b), id);
    var e :| Received(e) in LogOf(moves, b) && IsStatus(e, id, Completed);
    LogOfIsFromMoves(moves, b, Received(e));
  }

  /**
   * In a whole call, a bucket raises an abort exactly when the last event it received reports
   * aborted an id still pending in it.  The exception names that id, the completed ids of the
   * bucket and the remaining ones.
   */
  lemma AbortNamesPendingId(ids: seq<string>, bucketSize: nat, moves: seq<Move>, b: nat)
    requires bucketSize > 0 && b < |Buckets(ids, bucketSize)|
    requires FeasibleCall(StartCall(Buckets(ids, bucketSize)), moves)
    ensures var bucket, log, w := Buckets(ids, bucketSize)[b], LogOf(moves, b),
                                  AfterCall(StartCall(Buckets(ids, bucketSize)), moves).buckets;
      && b < |w|
      && (w[b].phase.Failed? && w[b].phase.failure.ResultAborted? <==> EndsInAbort(bucket, log))
      && (EndsInAbort(bucket, log) ==>
            var f := w[b].phase.failure;
            && f.abortedId == log[|log| - 1].event.resultId
            && InBucket(b, log[|log| - 1]) in moves
            && f.abortedId in f.remainingIds
            && f.remainingIds == bucket - CompletedIds(log)
            && Elements(f.completedIds) == bucket * CompletedIds(log) && Distinct(f.completedIds))
  {
    var bs := Buckets(ids, bucketSize);
    BucketRunsAlone(bs, moves, b);
    AbortIffReported(bs[b], LogOf(moves, b));
    if LogOf(moves, b) != [] {
      LogOfIsFromMoves(moves, b, LogOf(moves, b)[|LogOf(moves, b)| - 1]);
    }
    EveryRunKeepsInv(bs[b], LogOf(moves, b));
  }
}
