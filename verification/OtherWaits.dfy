/**
 * The Python and C++ forms of waiting for results, held to the same definition of
 * the pending set as the C# form: the requested ids minus those reported completed.
 */
module OtherWaits {
  import opened Basics
  import opened Batching
  import opened WaitProtocol

  // ---------------------------------------------------------------- Python

  /** What one get_events call meets: events, the end of the stream, or an RpcError (also when connecting). */
  predicate IsAnswer(input: Input) { input.Received? || input.StreamEnded? || input.RpcFailure? }

  datatype PyOutcome = Waiting | Finished | RaisedAborted(id: string)

  datatype PyResult = PyResult(notFound: set<string>, outcome: PyOutcome, consumed: nat)

  /** The run of `_wait_all` from answer i on, with `pending` still not found. */
  function PyFrom(pending: set<string>, inputs: seq<Input>, i: nat): PyResult
    requires i <= |inputs|
    decreases |inputs| - i
  {
    if i == |inputs| then PyResult(pending, Waiting, i)
    else match inputs[i]
      case StreamEnded => PyResult(pending, Finished, i + 1)
      case Received(e) =>
        if e.OtherUpdate? || e.resultId !in pending then PyFrom(pending, inputs, i + 1)
        else if e.status == Aborted then PyResult(pending, RaisedAborted(e.resultId), i + 1)
        else if e.status != Completed then PyFrom(pending, inputs, i + 1)
        else if pending == {e.resultId} then PyResult({}, Finished, i + 1)
        else PyFrom(pending - {e.resultId}, inputs, i + 1)
      case _ => PyFrom(pending, inputs, i + 1)
  }

  /** A whole `_wait_all`: no results, nothing to do. */
  function PyRun(results: set<string>, inputs: seq<Input>): PyResult {
    if results == {} then PyResult({}, Finished, 0) else PyFrom(results, inputs, 0)
  }

  lemma CompletedSnoc(log: seq<Input>, i: nat)
    requires i < |log|
    ensures CompletedIds(log[..i + 1])
            == CompletedIds(log[..i])
               + if log[i].Received? && !log[i].event.OtherUpdate? && log[i].event.status == Completed
                 then {log[i].event.resultId} else {}
  {
    assert log[..i + 1][..i] == log[..i];
  }

  /** The handler closure: True ends the stream, an abort raises. */
  method Handler(notFound: set<string>, event: Event) returns (left: set<string>, stop: bool, raised: bool)
    ensures left == notFound - (if !event.OtherUpdate? && event.status == Completed then {event.resultId} else {})
    ensures stop <==> !event.OtherUpdate? && event.resultId in notFound && event.status == Completed && left == {}
    ensures raised <==> !event.OtherUpdate? && event.resultId in notFound && event.status == Aborted
  {
    left, stop, raised := notFound, false, false;
    if !event.OtherUpdate? && event.resultId in notFound {
      if event.status == Completed {
        left := notFound - {event.resultId};
        stop := left == {};
      } else if event.status == Aborted {
        raised := true;
      }
    }
  }

  /**
   * _wait_all: RPC errors are swallowed without bound; a stream that merely ends
   * makes the call return, whatever is still pending.
   */
  method WaitAllPython(results: set<string>, inputs: seq<Input>) returns (r: PyResult)
    requires forall i :: 0 <= i < |inputs| ==> IsAnswer(inputs[i])
    ensures r == PyRun(results, inputs)
  {
    if results == {} {
      return PyResult({}, Finished, 0);
    }
    var notFound := results;
    var i := 0;
    while notFound != {}
      invariant i <= |inputs| && notFound != {}
      invariant PyFrom(notFound, inputs, i) == PyFrom(results, inputs, 0)
      decreases |inputs| - i
    {
      var failed := false;
      // get_events: iterates over one stream until it ends, fails, or the handler returns True
      while true
        invariant i <= |inputs| && notFound != {} && !failed
        invariant PyFrom(notFound, inputs, i) == PyFrom(results, inputs, 0)
        decreases |inputs| - i
      {
        if i == |inputs| {
          return PyResult(notFound, Waiting, i);
        }
        i := i + 1;
        if inputs[i - 1].RpcFailure? {
          failed := true;
          break;
        }
        if inputs[i - 1].StreamEnded? {
          break;
        }
        var left, stop, raised := Handler(notFound, inputs[i - 1].event);
        if raised {
          return PyResult(notFound, RaisedAborted(inputs[i - 1].event.resultId), i);
        }
        assert stop ==> notFound == {inputs[i - 1].event.resultId};
        assert left != notFound && !stop ==> notFound != {inputs[i - 1].event.resultId};
        notFound := left;
        if stop {
          break;
        }
      }
      if !failed {
        break;
      }
    }
    r := PyResult(notFound, Finished, i);
  }

  /** None of the first n answers ends the stream or aborts a pending id. */
  ghost predicate Quiet(results: set<string>, inputs: seq<Input>, n: nat)
    requires n <= |inputs|
  {
    forall k :: 0 <= k < n ==> inputs[k] != StreamEnded && !AbortsAt(results, inputs, k)
  }

  /**
   * What a Python run means.  The pending set is the common one; an abort names a
   * pending id; and a normal return leaves ids pending exactly when the stream ended
   * by itself, which the C# form answers with a reconnection instead.
   */
  ghost predicate PyMeans(results: set<string>, inputs: seq<Input>, r: PyResult) {
    && r.consumed <= |inputs|
    && r.notFound == results - CompletedIds(inputs[..r.consumed])
    && match r.outcome
       case Waiting => r.consumed == |inputs| && r.notFound != {} && Quiet(results, inputs, r.consumed)
       case Finished =>
         if r.notFound == {} then Quiet(results, inputs, r.consumed)
         else r.consumed > 0 && inputs[r.consumed - 1] == StreamEnded && Quiet(results, inputs, r.consumed - 1)
       case RaisedAborted(id) =>
         && r.consumed > 0 && Quiet(results, inputs, r.consumed - 1)
         && AbortsAt(results, inputs, r.consumed - 1) && inputs[r.consumed - 1].event.resultId == id
         && id in r.notFound
  }

  lemma {:induction false} PythonRun(results: set<string>, inputs: seq<Input>, pending: set<string>, i: nat)
    requires i <= |inputs| && pending == results - CompletedIds(inputs[..i]) && pending != {}
    requires Quiet(results, inputs, i)
    ensures PyMeans(results, inputs, PyFrom(pending, inputs, i))
    decreases |inputs| - i
  {
    if i == |inputs| {
      return;
    }
    CompletedSnoc(inputs, i);
    var next := results - CompletedIds(inputs[..i + 1]);
    var input := inputs[i];
    if input.Received? && !input.event.OtherUpdate? && input.event.status == Completed {
      var id := input.event.resultId;
      assert next == pending - {id};
      if next == {} {
        OnlyOne(pending, id);
      } else {
        assert id !in pending ==> next == pending;
        PythonRun(results, inputs, next, i + 1);
      }
    } else {
      assert next == pending;
      if input != StreamEnded && !AbortsAt(results, inputs, i) {
        PythonRun(results, inputs, pending, i + 1);
      }
    }
  }

  lemma OnlyOne(ids: set<string>, id: string)
    requires ids != {} && ids - {id} == {}
    ensures ids == {id}
  {
    assert forall x :: x in ids ==> x == id || x in ids - {id};
  }

  lemma PythonCall(results: set<string>, inputs: seq<Input>)
    ensures PyMeans(results, inputs, PyRun(results, inputs))
  {
    assert results == results - CompletedIds(inputs[..0]);
    if results != {} {
      PythonRun(results, inputs, results, 0);
    }
  }

  // ---------------------------------------------------------------- how a Python wait ends, told on its answers

  datatype Ending = AllFound | StreamOver | Abort(id: string) | StillWaiting

  function EndingOf(r: PyResult): Ending {
    match r.outcome
    case Waiting => StillWaiting
    case Finished => if r.notFound == {} then AllFound else StreamOver
    case RaisedAborted(id) => Abort(id)
  }

  /** The n-th answer decides: everything is completed before it, it ends the stream, or it aborts. */
  ghost predicate EndsAt(results: set<string>, inputs: seq<Input>, n: nat, e: Ending) {
    && n <= |inputs| && Quiet(results, inputs, n)
    && match e
       case AllFound => results <= CompletedIds(inputs[..n])
       case StreamOver => n < |inputs| && inputs[n] == StreamEnded && !(results <= CompletedIds(inputs[..n]))
       case Abort(id) => n < |inputs| && AbortsAt(results, inputs, n) && inputs[n].event.resultId == id
       case StillWaiting => n == |inputs| && !(results <= CompletedIds(inputs))
  }

  ghost predicate Ends(results: set<string>, inputs: seq<Input>, e: Ending) {
    exists n :: EndsAt(results, inputs, n, e)
  }

  lemma CompletedIdsGrow(log: seq<Input>, m: nat, n: nat)
    requires m <= n <= |log|
    ensures CompletedIds(log[..m]) <= CompletedIds(log[..n])
  {
    forall id | id in CompletedIds(log[..m])
      ensures id in CompletedIds(log[..n])
    {
      CompletedIdsMember(log[..m], id);
      CompletedIdsMember(log[..n], id);
      var e :| Received(e) in log[..m] && IsStatus(e, id, Completed);
      assert log[..m] <= log[..n];
    }
  }

  lemma OneEnding(results: set<string>, inputs: seq<Input>, m: nat, e: Ending, n: nat, f: Ending)
    requires m <= n && EndsAt(results, inputs, m, e) && EndsAt(results, inputs, n, f)
    ensures e == f
  {
    CompletedIdsGrow(inputs, m, n);
    assert inputs[..|inputs|] == inputs;
  }

  /** How a Python wait ends, for every list of answers and on the answers alone. */
  lemma PythonEnding(results: set<string>, inputs: seq<Input>)
    ensures forall e :: EndingOf(PyRun(results, inputs)) == e <==> Ends(results, inputs, e)
  {
    var r := PyRun(results, inputs);
    var n := PythonEnds(results, inputs);
    forall e
      ensures EndingOf(r) == e <==> Ends(results, inputs, e)
    {
      if m :| EndsAt(results, inputs, m, e) {
        if m <= n {
          OneEnding(results, inputs, m, e, n, EndingOf(r));
        } else {
          OneEnding(results, inputs, n, EndingOf(r), m, e);
        }
      }
    }
  }

  lemma PythonEnds(results: set<string>, inputs: seq<Input>) returns (n: nat)
    ensures EndsAt(results, inputs, n, EndingOf(PyRun(results, inputs)))
  {
    PythonCall(results, inputs);
    var r := PyRun(results, inputs);
    n := r.consumed;
    assert inputs[..|inputs|] == inputs;
    match EndingOf(r)
    case AllFound =>
    case StillWaiting =>
    case _ =>
      n := r.consumed - 1;
      CompletedIdsGrow(inputs, n, n + 1);
  }

  /** The stream just ends: the call returns with the id pending. */
  lemma PythonLeavesPending(x: string)
    ensures PyRun({x}, [StreamEnded]) == PyResult({x}, Finished, 1)
  {
  }

  // ---------------------------------------------------------------- a whole Python call

  /** How a whole call ends: normally, by an abort, or not yet. */
  datatype PyCall = CallReturned | CallRaised(id: string) | CallWaiting

  /** The run of one batch on its own answers. */
  function BatchRun(batches: seq<seq<string>>, logs: seq<seq<Input>>, b: nat): PyResult
    requires |logs| == |batches| && b < |batches|
  {
    PyRun(Elements(batches[b]), logs[b])
  }

  ghost predicate BatchesFinish(batches: seq<seq<string>>, logs: seq<seq<Input>>, n: nat)
    requires |logs| == |batches| && n <= |batches|
  {
    forall b :: 0 <= b < n ==> BatchRun(batches, logs, b).outcome == Finished
  }

  /** Batch b is the first that does not finish. */
  ghost predicate StopsAt(batches: seq<seq<string>>, logs: seq<seq<Input>>, b: nat, outcome: PyOutcome)
    requires |logs| == |batches|
  {
    b < |batches| && BatchesFinish(batches, logs, b) && BatchRun(batches, logs, b).outcome == outcome
  }

  /** Each answer list belongs to one batch of the requested ids, in any order the set is walked. */
  ghost predicate BatchLogs(ids: seq<string>, bucketSize: int, logs: seq<seq<Input>>) {
    && |logs| == |Batches(ids, bucketSize)|
    && forall b, k :: 0 <= b < |logs| && 0 <= k < |logs[b]| ==> IsAnswer(logs[b][k])
  }

  /** wait_for_result_availability without parallelism: the batches one after the other, until one raises. */
  method WaitPython(ids: seq<string>, bucketSize: int, logs: seq<seq<Input>>) returns (r: PyCall)
    requires BatchLogs(ids, bucketSize, logs)
    ensures var bs := Batches(ids, bucketSize);
      match r
      case CallReturned => BatchesFinish(bs, logs, |bs|)
      case CallRaised(id) => exists b :: StopsAt(bs, logs, b, RaisedAborted(id))
      case CallWaiting => exists b :: StopsAt(bs, logs, b, Waiting)
  {
    if |ids| == 0 {
      assert Batches(ids, bucketSize) == [];
      return CallReturned;
    }
    var batches := Batched(ids, bucketSize);
    for b := 0 to |batches|
      invariant BatchesFinish(batches, logs, b)
    {
      var one := WaitAllPython(Elements(batches[b]), logs[b]);
      assert one == BatchRun(batches, logs, b);
      match one.outcome {
        case RaisedAborted(id) =>
          assert StopsAt(batches, logs, b, RaisedAborted(id));
          return CallRaised(id);
        case Waiting =>
          assert StopsAt(batches, logs, b, Waiting);
          return CallWaiting;
        case Finished =>
      }
    }
    r := CallReturned;
  }

  lemma {:induction false} SomeBatchHolds<T>(batches: seq<seq<T>>, x: T) returns (b: nat)
    requires x in Flatten(batches)
    ensures b < |batches| && x in batches[b]
  {
    if x in batches[0] {
      b := 0;
    } else {
      b := SomeBatchHolds(batches[1..], x);
      b := b + 1;
    }
  }

  /** The ids of a batch that its run never saw completed. */
  function Missed(batches: seq<seq<string>>, logs: seq<seq<Input>>, b: nat): set<string>
    requires |logs| == |batches| && b < |batches|
  {
    BatchRun(batches, logs, b).notFound
  }

  /**
   * A whole Python call, sequential or parallel, returns normally when every batch does.
   * Then each requested id sits in a batch that missed it or saw it completed in the answers
   * it read; a batch misses nothing exactly when its answers complete all its ids first, and
   * something exactly when its stream ends first.
   */
  lemma PythonNormalReturn(ids: seq<string>, bucketSize: int, logs: seq<seq<Input>>)
    requires BatchLogs(ids, bucketSize, logs) && BatchesFinish(Batches(ids, bucketSize), logs, |logs|)
    ensures var bs := Batches(ids, bucketSize);
      forall b :: 0 <= b < |bs| ==>
        var n := BatchRun(bs, logs, b).consumed;
        n <= |logs[b]| && Missed(bs, logs, b) == Elements(bs[b]) - CompletedIds(logs[b][..n])
    ensures var bs := Batches(ids, bucketSize);
      forall id :: id in ids ==> exists b :: 0 <= b < |bs| && id in bs[b]
    ensures var bs := Batches(ids, bucketSize);
      forall b :: 0 <= b < |bs| ==>
        && (Missed(bs, logs, b) == {} <==> Ends(Elements(bs[b]), logs[b], AllFound))
        && (Missed(bs, logs, b) != {} <==> Ends(Elements(bs[b]), logs[b], StreamOver))
  {
    var bs := Batches(ids, bucketSize);
    BatchesJoin(ids, bucketSize);
    forall b | 0 <= b < |bs|
      ensures PyMeans(Elements(bs[b]), logs[b], BatchRun(bs, logs, b))
      ensures Missed(bs, logs, b) == {} <==> Ends(Elements(bs[b]), logs[b], AllFound)
      ensures Missed(bs, logs, b) != {} <==> Ends(Elements(bs[b]), logs[b], StreamOver)
    {
      PythonCall(Elements(bs[b]), logs[b]);
      PythonEnding(Elements(bs[b]), logs[b]);
    }
    forall id | id in ids
      ensures exists b :: 0 <= b < |bs| && id in bs[b]
    {
      var b := SomeBatchHolds(bs, id);
    }
  }

  // ---------------------------------------------------------------- C++

  function Reads(events: seq<Event>): (log: seq<Input>)
    ensures |log| == |events|
  {
    seq(|events|, i requires 0 <= i < |events| => Received(events[i]))
  }

  /** std::remove followed by erase: every occurrence goes, the order of the others stays. */
  function Without(ids: seq<string>, gone: set<string>): seq<string> {
    if ids == [] then []
    else (if ids[0] in gone then [] else [ids[0]]) + Without(ids[1..], gone)
  }

  lemma WithoutStep(kept: seq<string>, ids: seq<string>, gone: set<string>, i: nat)
    requires i < |ids|
    ensures kept + Without(ids[i..], gone)
            == (if ids[i] in gone then kept else kept + [ids[i]]) + Without(ids[i + 1..], gone)
  {
    var rest := Without(ids[i + 1..], gone);
    assert ids[i..][1..] == ids[i + 1..];
    if ids[i] in gone {
      assert Without(ids[i..], gone) == rest;
    } else {
      assert Without(ids[i..], gone) == [ids[i]] + rest;
      Assoc(kept, [ids[i]], rest);
    }
  }

  lemma {:induction false} WithoutTwice(ids: seq<string>, a: set<string>, b: set<string>)
    ensures Without(Without(ids, a), b) == Without(ids, a + b)
  {
    if ids != [] {
      WithoutTwice(ids[1..], a, b);
      var rest := Without(ids[1..], a);
      if ids[0] in a {
        assert Without(ids, a) == rest;
      } else {
        assert Without(ids, a) == [ids[0]] + rest;
        assert ([ids[0]] + rest)[1..] == rest;
      }
    }
  }

  lemma {:induction false} WithoutNothing(ids: seq<string>)
    ensures Without(ids, {}) == ids
  {
    if ids != [] {
      WithoutNothing(ids[1..]);
    }
  }

  /** Part by part, id by id: the order and the repetitions of what stays are kept. */
  lemma {:induction false} WithoutIsFilter(a: seq<string>, b: seq<string>, gone: set<string>, x: string)
    ensures Without(a + b, gone) == Without(a, gone) + Without(b, gone)
    ensures Without([x], gone) == if x in gone then [] else [x]
  {
    assert [x][1..] == [];
    if a == [] {
      assert a + b == b;
    } else {
      WithoutIsFilter(a[1..], b, gone, x);
      assert (a + b)[1..] == a[1..] + b;
      Assoc(if a[0] in gone then [] else [a[0]], Without(a[1..], gone), Without(b, gone));
    }
  }

  lemma {:induction false} WithoutMember(ids: seq<string>, gone: set<string>, x: string)
    ensures x in Without(ids, gone) <==> x in ids && x !in gone
  {
    if ids != [] {
      WithoutMember(ids[1..], gone, x);
      assert ids == [ids[0]] + ids[1..];
    }
  }

  lemma WithoutElements(ids: seq<string>, gone: set<string>)
    ensures Elements(Without(ids, gone)) == Elements(ids) - gone
  {
    forall x
      ensures x in Elements(Without(ids, gone)) <==> x in Elements(ids) - gone
    {
      WithoutMember(ids, gone, x);
    }
  }

  /** The loop erases one id at a time with std::remove. */
  method Erase(ids: seq<string>, id: string) returns (kept: seq<string>)
    ensures kept == Without(ids, {id})
  {
    kept := [];
    for i := 0 to |ids|
      invariant kept + Without(ids[i..], {id}) == Without(ids, {id})
    {
      WithoutStep(kept, ids, {id}, i);
      if ids[i] != id {
        kept := kept + [ids[i]];
      }
    }
  }

  function Named(ids: set<string>): set<string> { ids - {""} }

  /** The id an event reports completed, or the empty string. */
  function Reported(e: Event): string { if !e.OtherUpdate? && e.status == Completed then e.resultId else "" }

  /** The ids left after k events, in their original order. */
  function PendingAt(ids: seq<string>, events: seq<Event>, k: nat): seq<string>
    requires k <= |events|
  {
    Without(ids, Named(CompletedIds(Reads(events)[..k])))
  }

  lemma PendingStep(ids: seq<string>, events: seq<Event>, k: nat)
    requires k < |events|
    ensures PendingAt(ids, events, k + 1)
            == if Reported(events[k]) == "" then PendingAt(ids, events, k)
               else Without(PendingAt(ids, events, k), {Reported(events[k])})
  {
    var before, now := CompletedIds(Reads(events)[..k]), CompletedIds(Reads(events)[..k + 1]);
    var id := Reported(events[k]);
    CompletedSnoc(Reads(events), k);
    if id == "" {
      assert Named(now) == Named(before);
    } else {
      assert Named(now) == Named(before) + {id};
      WithoutTwice(ids, Named(before), {id});
    }
  }

  /** What the try block meets: the id read from the update, possibly empty, or the exception it throws. */
  datatype Attempt = UpdateOrNew(id: string) | Threw(abortedId: string)

  /** The switch of the try block. */
  method Switch(response: Event) returns (a: Attempt)
    ensures a.UpdateOrNew? ==> a.id == Reported(response)
    ensures a.Threw? <==> !response.OtherUpdate? && response.status == Aborted
    ensures a.Threw? ==> a.abortedId == response.resultId
  {
    var updateOrNew := "";
    match response {
      case ResultStatusUpdate(id, status) =>
        match status {
          case Completed => updateOrNew := id;
          case Aborted => return Threw(id);
          case _ =>
        }
      case NewResult(id, status) =>
        match status {
          case Completed => updateOrNew := id;
          case Aborted => return Threw(id);
          case _ =>
        }
      case OtherUpdate =>
    }
    a := UpdateOrNew(updateOrNew);
  }

  /** `logged` are the ids of the abort exceptions written to the error stream by the handler. */
  datatype CppResult = CppResult(pending: seq<string>, consumed: nat, logged: seq<string>)

  /** The run on the remaining events; an abort is logged and the loop goes on. */
  function CppOn(pending: seq<string>, events: seq<Event>): CppResult
    decreases |events|
  {
    if events == [] then CppResult(pending, 0, [])
    else if IsAbort(events[0]) then
      var rest := CppOn(pending, events[1..]);
      CppResult(rest.pending, rest.consumed + 1, [events[0].resultId] + rest.logged)
    else
      var id := Reported(events[0]);
      var left := if id == "" then pending else Without(pending, {id});
      if id != "" && left == [] then CppResult([], 1, [])
      else
        var rest := CppOn(left, events[1..]);
        CppResult(rest.pending, rest.consumed + 1, rest.logged)
  }

  /** A result, as seen by a loop that has already consumed and logged something. */
  function Shifted(r: CppResult, consumed: nat, logged: seq<string>): CppResult {
    CppResult(r.pending, consumed + r.consumed, logged + r.logged)
  }

  /**
   * wait_for_result_availability: one stream, read until it ends or nothing is left.  The
   * handler catches the abort exception of its own try block.
   */
  method WaitCpp(ids: seq<string>, events: seq<Event>) returns (r: CppResult)
    ensures r == CppOn(ids, events)
  {
    var resultIds := ids;
    var logged: seq<string> := [];
    var i := 0;
    assert events[0..] == events;
    while i < |events|
      invariant i <= |events|
      invariant Shifted(CppOn(resultIds, events[i..]), i, logged) == CppOn(ids, events)
    {
      assert events[i..][1..] == events[i + 1..];
      var attempt := Switch(events[i]);
      ghost var rest := events[i + 1..];
      i := i + 1;
      match attempt {
        case Threw(id) =>
          Assoc(logged, [id], CppOn(resultIds, rest).logged);
          logged := logged + [id];
        case UpdateOrNew(updateOrNew) =>
          if updateOrNew != "" {
            resultIds := Erase(resultIds, updateOrNew);
            if resultIds == [] {
              assert logged + [] == logged;
              return CppResult([], i, logged);
            }
          }
      }
    }
    assert logged + [] == logged;
    r := CppResult(resultIds, i, logged);
  }

  /** Event k reports an id completed, and then every id is. */
  predicate LeavesAfter(ids: seq<string>, events: seq<Event>, k: nat)
    requires k < |events|
  {
    Reported(events[k]) != "" && PendingAt(ids, events, k + 1) == []
  }

  /**
   * What a run does that starts with the ids pending before event i: it keeps the ids not
   * reported completed, and stops behind the first event that leaves none, or at the end.
   */
  ghost predicate CppKeeps(ids: seq<string>, events: seq<Event>, i: nat, r: CppResult) {
    && i + r.consumed <= |events|
    && r.pending == PendingAt(ids, events, i + r.consumed)
    && (i + r.consumed < |events| ==> r.consumed > 0 && LeavesAfter(ids, events, i + r.consumed - 1))
    && forall k :: i <= k && k + 1 < i + r.consumed ==> !LeavesAfter(ids, events, k)
  }

  /** How a run over event i and the run from the next event on are related. */
  predicate CppMoves(ids: seq<string>, events: seq<Event>, i: nat, r: CppResult, rest: CppResult)
    requires i < |events|
  {
    if LeavesAfter(ids, events, i) then r.consumed == 1 && r.pending == []
    else r.consumed == 1 + rest.consumed && r.pending == rest.pending
  }

  lemma CppStep(ids: seq<string>, events: seq<Event>, i: nat)
    requires i < |events|
    ensures CppMoves(ids, events, i, CppOn(PendingAt(ids, events, i), events[i..]),
                     CppOn(PendingAt(ids, events, i + 1), events[i + 1..]))
  {
    PendingStep(ids, events, i);
    assert events[i..][1..] == events[i + 1..];
  }

  lemma KeepsStep(ids: seq<string>, events: seq<Event>, i: nat, r: CppResult, rest: CppResult)
    requires i < |events| && CppMoves(ids, events, i, r, rest) && CppKeeps(ids, events, i + 1, rest)
    ensures CppKeeps(ids, events, i, r)
  {
    assert i + (1 + rest.consumed) == (i + 1) + rest.consumed;
  }

  /** A C++ run keeps the ids not reported completed, and leaves an open stream only when none is left. */
  lemma {:induction false} CppSuffix(ids: seq<string>, events: seq<Event>, i: nat)
    requires i <= |events|
    ensures CppKeeps(ids, events, i, CppOn(PendingAt(ids, events, i), events[i..]))
    decreases |events| - i
  {
    if i == |events| {
      assert events[i..] == [];
    } else {
      CppStep(ids, events, i);
      CppSuffix(ids, events, i + 1);
      KeepsStep(ids, events, i, CppOn(PendingAt(ids, events, i), events[i..]),
                CppOn(PendingAt(ids, events, i + 1), events[i + 1..]));
    }
  }

  /** With nothing pending before event i, nothing is pending later. */
  lemma NothingComesBack(ids: seq<string>, events: seq<Event>, i: nat)
    requires i <= |events| && PendingAt(ids, events, i) == []
    ensures PendingAt(ids, events, |events|) == []
  {
    var before, all := CompletedIds(Reads(events)[..i]), CompletedIds(Reads(events)[..|events|]);
    CompletedIdsGrow(Reads(events), i, |events|);
    WithoutTwice(ids, Named(before), Named(all));
    assert Named(before) + Named(all) == Named(all);
  }

  /** The C++ wait in closed form: the ids that no event of the whole stream completes. */
  lemma CppCall(ids: seq<string>, events: seq<Event>)
    ensures CppKeeps(ids, events, 0, CppOn(ids, events))
    ensures CppOn(ids, events).pending == Without(ids, Named(CompletedIds(Reads(events))))
    ensures CppOn(ids, events).consumed < |events| ==> CppOn(ids, events).pending == []
  {
    PendingAtStart(ids, events);
    assert events[0..] == events;
    CppSuffix(ids, events, 0);
    var r := CppOn(ids, events);
    if r.consumed < |events| {
      NothingComesBack(ids, events, r.consumed);
    }
    assert Reads(events)[..|events|] == Reads(events);
  }

  lemma PendingAtStart(ids: seq<string>, events: seq<Event>)
    ensures PendingAt(ids, events, 0) == ids
  {
    assert Named(CompletedIds(Reads(events)[..0])) == {};
    WithoutNothing(ids);
  }

  // ---------------------------------------------------------------- what the C++ handler does to aborts

  function WithoutAborts(events: seq<Event>): seq<Event> {
    if events == [] then []
    else (if IsAbort(events[0]) then [] else [events[0]]) + WithoutAborts(events[1..])
  }

  function AbortedIds(events: seq<Event>): seq<string> {
    if events == [] then []
    else (if IsAbort(events[0]) then [events[0].resultId] else []) + AbortedIds(events[1..])
  }

  lemma PrefixStep(events: seq<Event>, n: nat)
    requires 0 < n <= |events|
    ensures var e, rest := events[0], events[1..][..n - 1];
      && WithoutAborts(events[..n]) == (if IsAbort(e) then [] else [e]) + WithoutAborts(rest)
      && AbortedIds(events[..n]) == (if IsAbort(e) then [e.resultId] else []) + AbortedIds(rest)
  {
    assert events[..n][0] == events[0];
    assert events[..n][1..] == events[1..][..n - 1];
  }

  /** A run and the run on the same events without the aborts. */
  predicate Traceless(events: seq<Event>, r: CppResult, clean: CppResult) {
    && r.consumed <= |events|
    && clean == CppResult(r.pending, |WithoutAborts(events[..r.consumed])|, [])
    && r.logged == AbortedIds(events[..r.consumed])
  }

  lemma TracelessAbort(events: seq<Event>, r: CppResult, clean: CppResult)
    requires events != [] && IsAbort(events[0]) && Traceless(events[1..], r, clean)
    ensures Traceless(events, CppResult(r.pending, r.consumed + 1, [events[0].resultId] + r.logged), clean)
  {
    PrefixStep(events, r.consumed + 1);
  }

  lemma TracelessOther(events: seq<Event>, r: CppResult, clean: CppResult)
    requires events != [] && !IsAbort(events[0]) && Traceless(events[1..], r, clean)
    ensures Traceless(events, CppResult(r.pending, r.consumed + 1, r.logged),
                      CppResult(clean.pending, clean.consumed + 1, clean.logged))
  {
    PrefixStep(events, r.consumed + 1);
  }

  lemma TracelessStop(events: seq<Event>)
    requires events != [] && !IsAbort(events[0])
    ensures Traceless(events, CppResult([], 1, []), CppResult([], 1, []))
  {
    PrefixStep(events, 1);
  }

  /** One event that is no abort, in front of any others. */
  lemma OtherEvent(ids: seq<string>, e: Event, rest: seq<Event>)
    requires !IsAbort(e)
    ensures CppOn(ids, [e] + rest)
            == var left := if Reported(e) == "" then ids else Without(ids, {Reported(e)});
               if Reported(e) != "" && left == [] then CppResult([], 1, [])
               else
                 var r := CppOn(left, rest);
                 CppResult(r.pending, r.consumed + 1, r.logged)
  {
    assert ([e] + rest)[1..] == rest;
  }

  /**
   * Aborts leave no trace but a line in the log: the run is the run on the list without
   * them, stops at the same event, and logs exactly the aborts it passed.
   */
  lemma {:induction false} AbortsChangeNothing(ids: seq<string>, events: seq<Event>)
    ensures Traceless(events, CppOn(ids, events), CppOn(ids, WithoutAborts(events)))
    decreases |events|, 1
  {
    if events != [] {
      if IsAbort(events[0]) {
        AbortFirst(ids, events);
      } else {
        OtherFirst(ids, events);
      }
    }
  }

  lemma {:induction false} AbortFirst(ids: seq<string>, events: seq<Event>)
    requires events != [] && IsAbort(events[0])
    ensures Traceless(events, CppOn(ids, events), CppOn(ids, WithoutAborts(events)))
    decreases |events|, 0
  {
    AbortPasses(ids, events);
    AbortsChangeNothing(ids, events[1..]);
    TracelessAbort(events, CppOn(ids, events[1..]), CppOn(ids, WithoutAborts(events[1..])));
  }

  lemma {:induction false} OtherFirst(ids: seq<string>, events: seq<Event>)
    requires events != [] && !IsAbort(events[0])
    ensures Traceless(events, CppOn(ids, events), CppOn(ids, WithoutAborts(events)))
    decreases |events|, 0
  {
    OtherPasses(ids, events);
    var id := Reported(events[0]);
    var left := if id == "" then ids else Without(ids, {id});
    if id != "" && left == [] {
      TracelessStop(events);
    } else {
      AbortsChangeNothing(left, events[1..]);
      TracelessOther(events, CppOn(left, events[1..]), CppOn(left, WithoutAborts(events[1..])));
    }
  }

  lemma AbortPasses(ids: seq<string>, events: seq<Event>)
    requires events != [] && IsAbort(events[0])
    ensures WithoutAborts(events) == WithoutAborts(events[1..])
    ensures var r := CppOn(ids, events[1..]);
      CppOn(ids, events) == CppResult(r.pending, r.consumed + 1, [events[0].resultId] + r.logged)
  {
  }

  lemma OtherPasses(ids: seq<string>, events: seq<Event>)
    requires events != [] && !IsAbort(events[0])
    ensures var e, rest := events[0], events[1..];
      var left := if Reported(e) == "" then ids else Without(ids, {Reported(e)});
      if Reported(e) != "" && left == [] then
        CppOn(ids, events) == CppOn(ids, WithoutAborts(events)) == CppResult([], 1, [])
      else
        var r, clean := CppOn(left, rest), CppOn(left, WithoutAborts(rest));
        && CppOn(ids, events) == CppResult(r.pending, r.consumed + 1, r.logged)
        && CppOn(ids, WithoutAborts(events)) == CppResult(clean.pending, clean.consumed + 1, clean.logged)
  {
    OtherEvent(ids, events[0], events[1..]);
    assert [events[0]] + events[1..] == events;
    OtherEvent(ids, events[0], WithoutAborts(events[1..]));
  }

  // ---------------------------------------------------------------- C++ against the promise

  /** The same single stream, ended after its events, as the Python form sees it. */
  function AsLog(events: seq<Event>): seq<Input> { Reads(events) + [StreamEnded] }

  /** Some event reports aborted an id that no earlier one reported completed. */
  ghost predicate PendingIdAborted(ids: set<string>, events: seq<Event>) {
    exists k :: 0 <= k < |events| && AbortsAt(ids, Reads(events), k)
  }

  lemma FirstAbort(ids: set<string>, events: seq<Event>, k: nat) returns (n: nat)
    requires k < |events| && AbortsAt(ids, Reads(events), k)
    ensures n <= k && AbortsAt(ids, Reads(events), n) && Quiet(ids, Reads(events), n)
    decreases k
  {
    if Quiet(ids, Reads(events), k) {
      n := k;
    } else {
      var j :| 0 <= j < k && (Reads(events)[j] == StreamEnded || AbortsAt(ids, Reads(events), j));
      n := FirstAbort(ids, events, j);
    }
  }

  lemma LogPrefix(ids: set<string>, events: seq<Event>, n: nat)
    requires n <= |events|
    ensures AsLog(events)[..n] == Reads(events)[..n]
    ensures Quiet(ids, AsLog(events), n) <==> Quiet(ids, Reads(events), n)
    ensures n < |events| ==> (AbortsAt(ids, AsLog(events), n) <==> AbortsAt(ids, Reads(events), n))
  {
    assert forall k :: 0 <= k <= |events| ==> AsLog(events)[..k] == Reads(events)[..k];
  }

  /** On one stream a Python wait raises exactly when a pending id is aborted, and else keeps the common pending set. */
  lemma PythonOnOneStream(ids: set<string>, events: seq<Event>)
    ensures var p := PyRun(ids, AsLog(events));
      && (p.outcome.RaisedAborted? <==> PendingIdAborted(ids, events))
      && (!p.outcome.RaisedAborted? ==> p.outcome == Finished && p.notFound == ids - CompletedIds(Reads(events)))
  {
    var log, end := AsLog(events), |events|;
    PythonEnding(ids, log);
    if PendingIdAborted(ids, events) {
      var e := AbortEnds(ids, events);
    } else {
      LogPrefix(ids, events, end);
      assert log[..end] == Reads(events);
      var e := if ids <= CompletedIds(log[..end]) then AllFound else StreamOver;
      assert EndsAt(ids, log, end, e);
      assert Ends(ids, log, e);
      OverAtTheEnd(ids, events);
    }
  }

  lemma AbortEnds(ids: set<string>, events: seq<Event>) returns (e: Ending)
    requires PendingIdAborted(ids, events)
    ensures e.Abort? && Ends(ids, AsLog(events), e)
  {
    var k :| 0 <= k < |events| && AbortsAt(ids, Reads(events), k);
    var n := FirstAbort(ids, events, k);
    LogPrefix(ids, events, n);
    e := Abort(AsLog(events)[n].event.resultId);
    assert EndsAt(ids, AsLog(events), n, e);
  }

  lemma OverAtTheEnd(ids: set<string>, events: seq<Event>)
    requires PyRun(ids, AsLog(events)).outcome == Finished
    ensures var p := PyRun(ids, AsLog(events));
      if p.notFound == {} then ids <= CompletedIds(Reads(events)) else p.notFound == ids - CompletedIds(Reads(events))
  {
    var log, p := AsLog(events), PyRun(ids, AsLog(events));
    PythonCall(ids, log);
    LogPrefix(ids, events, |events|);
    CompletedSnoc(log, |events|);
    assert log[..|events|] == Reads(events) && log[..|events| + 1] == log;
    CompletedIdsGrow(log, p.consumed, |log|);
  }

  /**
   * The abort promise, on the events alone.  On one stream the Python wait raises exactly when
   * an id is reported aborted before it is reported completed.  The C++ wait ends with the same
   * pending ids exactly when that does not happen and no empty id is requested and completed.
   */
  lemma CppMeetsPromiseIff(ids: seq<string>, events: seq<Event>)
    ensures var c, p := CppOn(ids, events), PyRun(Elements(ids), AsLog(events));
      && (p.outcome.RaisedAborted? <==> PendingIdAborted(Elements(ids), events))
      && (p.outcome == Finished && p.notFound == Elements(c.pending)
          <==> !PendingIdAborted(Elements(ids), events) && !("" in ids && "" in CompletedIds(Reads(events))))
  {
    PythonOnOneStream(Elements(ids), events);
    CppCall(ids, events);
    CppPendingIff(ids, Reads(events));
  }

  /** One event: Python raises, C++ logs it and goes on waiting. */
  lemma OnlyPythonRaises(x: string)
    ensures var events := [NewResult(x, Aborted)];
      && PyRun({x}, AsLog(events)).outcome == RaisedAborted(x)
      && CppOn([x], events) == CppResult([x], 1, [x])
  {
    var events := [NewResult(x, Aborted)];
    assert AsLog(events)[0] == Received(events[0]);
    assert events[1..] == [];
  }

  /** The empty id is completed: Python returns, C++ keeps it. */
  lemma EmptyIdStays()
    ensures var events := [NewResult("", Completed)];
      && PyRun({""}, AsLog(events)) == PyResult({}, Finished, 1)
      && CppOn([""], events) == CppResult([""], 1, [])
  {
    var events := [NewResult("", Completed)];
    assert AsLog(events)[0] == Received(events[0]);
    assert events[1..] == [];
  }

  /** The C++ pending list is the common pending set exactly when no empty id was both requested and completed. */
  lemma CppPendingIff(ids: seq<string>, log: seq<Input>)
    ensures Elements(Without(ids, Named(CompletedIds(log)))) == Elements(ids) - CompletedIds(log)
            <==> !("" in ids && "" in CompletedIds(log))
  {
    WithoutElements(ids, Named(CompletedIds(log)));
    if "" in ids && "" in CompletedIds(log) {
      assert "" in Elements(Without(ids, Named(CompletedIds(log))));
    }
  }

  lemma PythonPendingIs(ids: set<string>, python: seq<Input>)
    requires PyRun(ids, python).consumed == |python|
    ensures PyRun(ids, python).notFound == ids - CompletedIds(python)
  {
    PythonCall(ids, python);
    assert python[..|python|] == python;
  }

  lemma CppPendingIs(ids: seq<string>, cpp: seq<Event>)
    requires "" !in ids
    ensures Elements(CppOn(ids, cpp).pending) == Elements(ids) - CompletedIds(Reads(cpp))
  {
    CppCall(ids, cpp);
    CppPendingIff(ids, Reads(cpp));
  }

  /**
   * The three languages compute one definition: runs that have received the same set of
   * events, in any order and over any number of streams, have the same ids pending.
   */
  lemma SameEventsSamePending(ids: seq<string>, csharp: seq<Input>, python: seq<Input>, cpp: seq<Event>)
    requires ids != [] && "" !in ids
    requires Feasible(Start(Elements(ids)), csharp)
    requires PyRun(Elements(ids), python).consumed == |python|
    requires forall e :: Received(e) in csharp <==> Received(e) in python
    requires forall e :: Received(e) in csharp <==> e in cpp
    ensures After(Start(Elements(ids)), csharp).notFound == PyRun(Elements(ids), python).notFound
            == Elements(CppOn(ids, cpp).pending) == Elements(ids) - CompletedIds(csharp)
  {
    EveryRunKeepsInv(Elements(ids), csharp);
    assert ids[0] in Elements(ids);
    PythonPendingIs(Elements(ids), python);
    SameCompleted(csharp, python);
    CppPendingIs(ids, cpp);
    ReadsMember(cpp);
    SameCompleted(csharp, Reads(cpp));
  }

  lemma ReadsMember(events: seq<Event>)
    ensures forall e :: Received(e) in Reads(events) <==> e in events
  {
    forall e
      ensures Received(e) in Reads(events) <==> e in events
    {
      if e in events {
        var k :| 0 <= k < |events| && events[k] == e;
        assert Reads(events)[k] == Received(e);
      }
    }
  }

  lemma SameCompleted(a: seq<Input>, b: seq<Input>)
    requires forall e :: Received(e) in a <==> Received(e) in b
    ensures CompletedIds(a) == CompletedIds(b)
  {
    forall id
      ensures id in CompletedIds(a) <==> id in CompletedIds(b)
    {
      CompletedIdsMember(a, id);
      CompletedIdsMember(b, id);
    }
  }
}
