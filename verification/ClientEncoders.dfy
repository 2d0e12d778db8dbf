/**
 * The client-side encoders of the submission stream.
 *
 * C#: lazy iterators that look one task ahead and poll a cancellation token.
 * C++: one block of messages per task, computed by index.
 * An iterator is modelled by the sequence of messages it yields.
 */
module ClientEncoders {
  import opened Basics
  import opened Chunking
  import opened TaskStream

  /** The fields of a submission's TaskOptions. Durations are kept as (seconds, nanos). */
  datatype TaskOptions = TaskOptions(
    options: map<string, string>,
    maxDuration: Option<(int, int)>,
    maxRetries: int,
    priority: int,
    partitionId: string,
    applicationName: string,
    applicationVersion: string,
    applicationNamespace: string,
    applicationService: string,
    engineType: string)

  datatype ClientMessage = InitRequest(sessionId: string, options: Option<TaskOptions>) | Body(message: TaskMessage)

  function Bodies(ms: seq<TaskMessage>): (cs: seq<ClientMessage>)
    ensures |cs| == |ms|
  {
    seq(|ms|, i requires 0 <= i < |ms| => Body(ms[i]))
  }

  /** An Init message followed by task messages. */
  function Framed(init: ClientMessage, ms: seq<TaskMessage>): seq<ClientMessage> {
    [init] + Bodies(ms)
  }

  lemma FramedAppend(init: ClientMessage, a: seq<TaskMessage>, b: seq<TaskMessage>)
    ensures Framed(init, a) + Bodies(b) == Framed(init, a + b)
  {
  }

  /** What an undisturbed client sends. */
  function Encode(sessionId: string, options: Option<TaskOptions>, ts: seq<TaskRequest>, max: nat): seq<ClientMessage>
    requires max > 0
  {
    Framed(InitRequest(sessionId, options), Grammar(Cuts(ts, max, true)))
  }

  // ---------------------------------------------------------------- reading a client stream back

  datatype Submission = Submission(sessionId: string, options: Option<TaskOptions>, tasks: seq<SentTask>)

  function DecodeClient(cs: seq<ClientMessage>): Option<Submission> {
    if cs == [] || !cs[0].InitRequest? || (exists i :: 1 <= i < |cs| && !cs[i].Body?) then
      None
    else
      match Decode(seq(|cs| - 1, i requires 0 <= i < |cs| - 1 => cs[i + 1].message))
      case None => None
      case Some(ts) => Some(Submission(cs[0].sessionId, cs[0].options, ts))
  }

  lemma DecodeFramed(sessionId: string, options: Option<TaskOptions>, ms: seq<TaskMessage>)
    ensures DecodeClient(Framed(InitRequest(sessionId, options), ms))
            == (match Decode(ms) case None => None case Some(ts) => Some(Submission(sessionId, options, ts)))
  {
    var cs := Framed(InitRequest(sessionId, options), ms);
    assert seq(|cs| - 1, i requires 0 <= i < |cs| - 1 => cs[i + 1].message) == ms;
  }

  lemma RoundTrip(sessionId: string, options: Option<TaskOptions>, ts: seq<TaskRequest>, max: nat)
    requires max > 0
    ensures DecodeClient(Encode(sessionId, options, ts, max)) == Some(Submission(sessionId, options, Sents(ts)))
    ensures var tasks := DecodeClient(Encode(sessionId, options, ts, max)).value.tasks;
      && |tasks| == |ts|
      && forall i :: 0 <= i < |ts| ==>
        tasks[i] == SentTask(TaskHeader(ts[i].expectedOutputKeys, ts[i].dataDependencies), ts[i].payload)
  {
    BodyRoundTrip(ts, max, true);
    DecodeFramed(sessionId, options, Grammar(Cuts(ts, max, true)));
  }

  /** Task by task, the same in everything but the payload name. */
  predicate SameButNames(ts: seq<TaskRequest>, ts': seq<TaskRequest>) {
    && |ts| == |ts'|
    && forall i :: 0 <= i < |ts| ==>
      && ts[i].expectedOutputKeys == ts'[i].expectedOutputKeys
      && ts[i].dataDependencies == ts'[i].dataDependencies
      && ts[i].payload == ts'[i].payload
  }

  lemma SameSents(ts: seq<TaskRequest>, ts': seq<TaskRequest>)
    ensures Sents(ts) == Sents(ts') <==> SameButNames(ts, ts')
  {
    if Sents(ts) == Sents(ts') {
      forall i | 0 <= i < |ts|
        ensures Sent(ts[i]) == Sent(ts'[i])
      {
        assert Sents(ts)[i] == Sents(ts')[i];
      }
    }
  }

  /** Two submissions share a stream exactly when they differ in payload names only. */
  lemma EncodingIdentifies(s: string, o: Option<TaskOptions>, ts: seq<TaskRequest>,
                           s': string, o': Option<TaskOptions>, ts': seq<TaskRequest>, max: nat)
    requires max > 0
    ensures Encode(s, o, ts, max) == Encode(s', o', ts', max) <==> s == s' && o == o' && SameButNames(ts, ts')
  {
    RoundTrip(s, o, ts, max);
    RoundTrip(s', o', ts', max);
    SameSents(ts, ts');
    if Sents(ts) == Sents(ts') {
      assert |ts| == |ts'|;
      forall i | 0 <= i < |ts|
        ensures Cuts(ts, max, true)[i] == Cuts(ts', max, true)[i]
      {
        assert Sents(ts)[i] == Sents(ts')[i];
      }
      assert Cuts(ts, max, true) == Cuts(ts', max, true);
    }
  }

  /** The chunk bound never changes the meaning, even between two different bounds. */
  lemma BoundIsIrrelevant(s: string, o: Option<TaskOptions>, ts: seq<TaskRequest>, max: nat,
                          s': string, o': Option<TaskOptions>, ts': seq<TaskRequest>, max': nat)
    requires max > 0 && max' > 0
    ensures DecodeClient(Encode(s, o, ts, max)) == DecodeClient(Encode(s, o, ts, max'))
    ensures Encode(s, o, ts, max) == Encode(s', o', ts', max') ==> s == s' && o == o' && SameButNames(ts, ts')
  {
    SameSents(ts, ts');
    RoundTrip(s, o, ts, max);
    RoundTrip(s, o, ts, max');
    RoundTrip(s', o', ts', max');
  }

  /** A stream cut short is rejected, with one exception: cut right after Init it reads as an empty submission. */
  lemma CutStreamDetected(s: string, o: Option<TaskOptions>, ts: seq<TaskRequest>, max: nat, k: nat)
    requires max > 0 && k < |Encode(s, o, ts, max)|
    ensures DecodeClient(Encode(s, o, ts, max)[..k]).Some? <==> k == 1
  {
    var ms := Grammar(Cuts(ts, max, true));
    if k > 0 {
      TruncationDetected(Cuts(ts, max, true), k - 1);
      assert Encode(s, o, ts, max)[..k] == Framed(InitRequest(s, o), ms[..k - 1]);
      DecodeFramed(s, o, ms[..k - 1]);
    }
  }

  // ---------------------------------------------------------------- cancellation

  /**
   * A cancellation token. `left` counts the polls that still answer "not
   * cancelled"; None is a token that is never cancelled.  Every token that is
   * cancelled at some moment and stays cancelled has this form.
   */
  class CancellationToken {
    var left: Option<nat>

    constructor (left: Option<nat>)
      ensures this.left == left
    {
      this.left := left;
    }

    method IsCancellationRequested() returns (cancelled: bool)
      modifies this
      ensures cancelled == (old(left) == Some(0))
      ensures left == Drop(old(left), 1)
    {
      cancelled := left.Some? && left.value == 0;
      if left.Some? && left.value > 0 {
        left := Some(left.value - 1);
      }
    }
  }

  function Drop(left: Option<nat>, polls: nat): Option<nat> {
    if left.None? then None else Some(if left.value >= polls then left.value - polls else 0)
  }

  /** How often the iterator of one task polls the token on its way to the completion marker. */
  function Polls(t: TaskRequest, max: nat): nat
    requires max > 0
  {
    |Chunks(t.payload, max)| + 2
  }

  /** How many of the task's messages leave before the first poll that sees the cancellation. */
  function SentCount(t: TaskRequest, isLast: bool, max: nat, left: Option<nat>): (n: nat)
    requires max > 0
    ensures n <= |FullTask(t, isLast, max, true)|
    ensures (left.None? || left.value >= Polls(t, max)) == (n == |FullTask(t, isLast, max, true)|)
    ensures n > 0
  {
    if left.None? || left.value >= Polls(t, max) then |FullTask(t, isLast, max, true)|
    else if t.payload == [] then left.value + 1
    else if left.value == 0 then 1 else left.value
  }

  /** The poll that ends a run leaves exactly what was sent so far. */
  lemma StoppedAt(t: TaskRequest, isLast: bool, max: nat, done: nat)
    requires max > 0 && done <= |Chunks(t.payload, max)|
    ensures FullTask(t, isLast, max, true)[..SentCount(t, isLast, max, Some(done + 1))] == Begun(t, max, true, done)
    ensures FullTask(t, isLast, max, true)[..SentCount(t, isLast, max, Some(0))] == [InitTask(Header(HeaderOf(t)))]
  {
    BegunPart(t, isLast, max, true, done);
  }

  /** The chunk loop of one task: it polls before each chunk and leaves at the first cancelled poll. */
  method SendChunks(t: TaskRequest, max: nat, token: CancellationToken, sent: seq<TaskMessage>)
    returns (out: seq<TaskMessage>, cancelled: bool, ghost done: nat)
    requires max > 0 && Progress(t, max, true, 0, 0, sent)
    modifies token
    ensures token.left == Drop(old(token.left), if cancelled then done + 1 else done)
    ensures if cancelled then
              done < |Chunks(t.payload, max)| && old(token.left) == Some(done) && out == Begun(t, max, true, done)
            else
              && Progress(t, max, true, |t.payload|, done, out)
              && (old(token.left).Some? ==> old(token.left).value >= done)
  {
    out := sent;
    done := 0;
    var start := 0;
    while start < |t.payload|
      invariant 0 <= start && Progress(t, max, true, start, done, out)
      invariant token.left == Drop(old(token.left), done)
      invariant old(token.left).Some? ==> old(token.left).value >= done
      decreases |t.payload| - start
    {
      cancelled := token.IsCancellationRequested();
      ProgressStep(t, max, true, start, done, out);
      if cancelled {
        return;
      }
      var chunkSize := Min(max, |t.payload| - start);
      out := out + [TaskPayload(Data(t.payload[start..start + chunkSize]))];
      start := start + chunkSize;
      done := done + 1;
    }
    cancelled := false;
  }

  /** One task of the C# client stream. */
  method TaskToRequestStream(t: TaskRequest, isLast: bool, max: nat, token: CancellationToken)
    returns (out: seq<TaskMessage>)
    requires max > 0
    modifies token
    ensures out == FullTask(t, isLast, max, true)[..SentCount(t, isLast, max, old(token.left))]
    ensures old(token.left).None? ==> LaidOut(t, isLast, max, DataCount(t, max, true), out)
    ensures token.left == Drop(old(token.left), Polls(t, max))
  {
    FullTaskLaidOut(t, isLast, max, true);
    out := [InitTask(Header(TaskHeader(t.expectedOutputKeys, t.dataDependencies)))];
    var cancelled := token.IsCancellationRequested();
    if cancelled {
      StoppedAt(t, isLast, max, 0);
      return;
    }
    if |t.payload| == 0 {
      out := out + [TaskPayload(Data([]))];
    }
    ProgressStart(t, max, true, out);
    ghost var done;
    out, cancelled, done := SendChunks(t, max, token, out);
    if cancelled {
      StoppedAt(t, isLast, max, done);
      return;
    }
    ProgressEnd(t, isLast, max, true, done, out);
    cancelled := token.IsCancellationRequested();
    if cancelled {
      StoppedAt(t, isLast, max, done);
      return;
    }
    out := out + [TaskPayload(Complete)];
    if isLast {
      out := out + [InitTask(LastTask)];
    }
  }

  /** What the C# client stream emits after Init under a token. */
  function Emitted(ts: seq<TaskRequest>, max: nat, left: Option<nat>): seq<TaskMessage>
    requires max > 0
    decreases |ts|
  {
    if ts == [] then [] else
      FullTask(ts[0], |ts| == 1, max, true)[..SentCount(ts[0], |ts| == 1, max, left)]
      + Emitted(ts[1..], max, Drop(left, Polls(ts[0], max)))
  }

  /** Having sent `sent`, what remains from task i on completes the run `all`. */
  ghost predicate Remaining(ts: seq<TaskRequest>, max: nat, i: nat, sent: seq<TaskMessage>, left: Option<nat>,
                            all: seq<TaskMessage>)
    requires max > 0
  {
    i <= |ts| && sent + Emitted(ts[i..], max, left) == all
  }

  lemma RemainingStep(ts: seq<TaskRequest>, max: nat, i: nat, sent: seq<TaskMessage>, left: Option<nat>,
                      ms: seq<TaskMessage>, all: seq<TaskMessage>)
    requires max > 0 && i < |ts|
    requires Remaining(ts, max, i, sent, left, all)
    requires ms == FullTask(ts[i], i == |ts| - 1, max, true)[..SentCount(ts[i], i == |ts| - 1, max, left)]
    ensures Remaining(ts, max, i + 1, sent + ms, Drop(left, Polls(ts[i], max)), all)
  {
  }

  lemma RemainingStart(ts: seq<TaskRequest>, max: nat, left: Option<nat>)
    requires max > 0
    ensures Remaining(ts, max, 0, [], left, Emitted(ts, max, left))
  {
  }

  lemma RemainingEnd(ts: seq<TaskRequest>, max: nat, sent: seq<TaskMessage>, left: Option<nat>, all: seq<TaskMessage>)
    requires max > 0
    requires Remaining(ts, max, |ts|, sent, left, all)
    ensures sent == all
  {
  }

  /** The source of tasks the iterator pulls from. */
  class TaskEnumerator {
    const items: seq<TaskRequest>
    var next: nat

    constructor (items: seq<TaskRequest>)
      ensures this.items == items && next == 0
    {
      this.items := items;
      next := 0;
    }

    method MoveNext() returns (more: bool)
      modifies this
      ensures more == (old(next) < |items|)
      ensures next == if more then old(next) + 1 else old(next)
    {
      more := next < |items|;
      if more {
        next := next + 1;
      }
    }

    function Current(): TaskRequest
      reads this
      requires 0 < next <= |items|
    {
      items[next - 1]
    }
  }

  /** The whole C# client stream: it learns that a task is the last one by asking for one more. */
  method ToRequestStream(ts: seq<TaskRequest>, sessionId: string, options: Option<TaskOptions>, max: nat,
                         token: CancellationToken)
    returns (out: seq<ClientMessage>)
    requires max > 0
    modifies token
    ensures out == Framed(InitRequest(sessionId, options), Emitted(ts, max, old(token.left)))
  {
    ghost var all := Emitted(ts, max, token.left);
    ghost var sent: seq<TaskMessage> := [];
    RemainingStart(ts, max, token.left);
    var init := InitRequest(sessionId, options);
    out := [init];
    var enumerator := new TaskEnumerator(ts);
    var more := enumerator.MoveNext();
    if !more {
      return;
    }
    var currentRequest := enumerator.Current();
    more := enumerator.MoveNext();
    ghost var i := 0;
    while more
      invariant fresh(enumerator) && enumerator.items == ts
      invariant i < |ts| && currentRequest == ts[i]
      invariant more == (i + 1 < |ts|)
      invariant enumerator.next == if more then i + 2 else i + 1
      invariant out == Framed(init, sent)
      invariant Remaining(ts, max, i, sent, token.left, all)
      decreases |ts| - i
    {
      ghost var left := token.left;
      var ms := TaskToRequestStream(currentRequest, false, max, token);
      RemainingStep(ts, max, i, sent, left, ms, all);
      FramedAppend(init, sent, ms);
      out := out + Bodies(ms);
      sent := sent + ms;
      currentRequest := enumerator.Current();
      i := i + 1;
      more := enumerator.MoveNext();
    }
    ghost var left := token.left;
    var ms := TaskToRequestStream(currentRequest, true, max, token);
    RemainingStep(ts, max, i, sent, left, ms, all);
    FramedAppend(init, sent, ms);
    out := out + Bodies(ms);
    RemainingEnd(ts, max, sent + ms, token.left, all);
  }

  function TotalPolls(ts: seq<TaskRequest>, max: nat): nat
    requires max > 0
  {
    if ts == [] then 0 else Polls(ts[0], max) + TotalPolls(ts[1..], max)
  }

  /** The token outlives the last poll of the run. */
  predicate Undisturbed(ts: seq<TaskRequest>, max: nat, left: Option<nat>)
    requires max > 0
  {
    left.None? || left.value >= TotalPolls(ts, max)
  }

  function HeadersOf(ts: seq<TaskRequest>): (ms: seq<TaskMessage>)
    ensures |ms| == |ts|
  {
    seq(|ts|, i requires 0 <= i < |ts| => InitTask(Header(HeaderOf(ts[i]))))
  }

  /** A complete stream is all messages of its first task, then the stream of the others. */
  lemma GrammarStep(ts: seq<TaskRequest>, max: nat, keepEmpty: bool)
    requires max > 0 && ts != []
    ensures Grammar(Cuts(ts, max, keepEmpty))
            == FullTask(ts[0], |ts| == 1, max, keepEmpty) + Grammar(Cuts(ts[1..], max, keepEmpty))
  {
    var c, rest := Cut(ts[0], max, keepEmpty), Cuts(ts[1..], max, keepEmpty);
    assert Cuts(ts, max, keepEmpty) == [c] + rest;
    if |ts| == 1 {
      GrammarOfOne(c, [c] + rest);
    } else {
      GrammarOfMore(c, rest);
    }
  }

  lemma GrammarOfMore(c: CutTask, rest: seq<CutTask>)
    requires rest != []
    ensures Grammar([c] + rest) == Block(c) + Grammar(rest)
  {
    assert ([c] + rest)[1..] == rest;
    Assoc(Block(c), Blocks(rest), [InitTask(LastTask)]);
  }

  /** The messages of every task, the last task with LastTask. */
  function TaskBlocks(ts: seq<TaskRequest>, max: nat, keepEmpty: bool): (bs: seq<seq<TaskMessage>>)
    requires max > 0
    ensures |bs| == |ts|
  {
    seq(|ts|, i requires 0 <= i < |ts| => FullTask(ts[i], i == |ts| - 1, max, keepEmpty))
  }

  lemma TaskBlocksCons(ts: seq<TaskRequest>, max: nat, keepEmpty: bool)
    requires max > 0 && ts != []
    ensures TaskBlocks(ts, max, keepEmpty)
            == [FullTask(ts[0], |ts| == 1, max, keepEmpty)] + TaskBlocks(ts[1..], max, keepEmpty)
  {
  }

  /** A complete stream is the tasks in order; nothing for no tasks. */
  lemma {:induction false} StreamIsItsTasks(ts: seq<TaskRequest>, max: nat, keepEmpty: bool)
    requires max > 0
    ensures Grammar(Cuts(ts, max, keepEmpty)) == Flatten(TaskBlocks(ts, max, keepEmpty))
    decreases |ts|
  {
    if ts != [] {
      StreamIsItsTasks(ts[1..], max, keepEmpty);
      GrammarStep(ts, max, keepEmpty);
      TaskBlocksCons(ts, max, keepEmpty);
      FlattenCons(FullTask(ts[0], |ts| == 1, max, keepEmpty), TaskBlocks(ts[1..], max, keepEmpty));
    }
  }

  lemma FlattenCons(x: seq<TaskMessage>, rest: seq<seq<TaskMessage>>)
    ensures Flatten([x] + rest) == x + Flatten(rest)
  {
    assert ([x] + rest)[1..] == rest;
  }

  lemma GrammarOfOne(c: CutTask, cs: seq<CutTask>)
    requires cs == [c]
    ensures Grammar(cs) == Block(c) + [InitTask(LastTask)]
  {
    assert Blocks(cs[1..]) == [];
  }

  lemma {:induction false} UndisturbedIsComplete(ts: seq<TaskRequest>, max: nat, left: Option<nat>)
    requires max > 0 && Undisturbed(ts, max, left)
    ensures Emitted(ts, max, left) == Grammar(Cuts(ts, max, true))
    decreases |ts|
  {
    if ts != [] {
      var left' := Drop(left, Polls(ts[0], max));
      UndisturbedIsComplete(ts[1..], max, left');
      GrammarStep(ts, max, true);
      assert FullTask(ts[0], |ts| == 1, max, true)[..SentCount(ts[0], |ts| == 1, max, left)]
          == FullTask(ts[0], |ts| == 1, max, true);
    }
  }

  /** One poll for every message of a task, the empty chunk of an empty payload excepted. */
  lemma PollsAreMessages(t: TaskRequest, max: nat)
    requires max > 0
    ensures |FullTask(t, false, max, true)| == Polls(t, max) + (if t.payload == [] then 1 else 0)
    ensures Polls(t, max) == CeilDiv(|t.payload|, max) + 2
  {
    FullTaskLaidOut(t, false, max, true);
    ChunksIsChunking(t.payload, max);
    if t.payload == [] {
      CeilDivIs(0, max, 0);
    }
  }

  /** A cancellation takes effect at once: after k polls, at least k and at most k + |ts| messages are out. */
  lemma {:induction false} CancellationIsPrompt(ts: seq<TaskRequest>, max: nat, k: nat)
    requires max > 0
    ensures k < TotalPolls(ts, max) ==> k <= |Emitted(ts, max, Some(k))| <= |ts| + k
    ensures |ts| <= |Emitted(ts, max, Some(k))|
    decreases |ts|
  {
    if ts != [] {
      var polls := Polls(ts[0], max);
      PollsAreMessages(ts[0], max);
      CancellationIsPrompt(ts[1..], max, if k >= polls then k - polls else 0);
      PromptInTask(ts[0], |ts| == 1, max, k);
    }
  }

  lemma PromptInTask(t: TaskRequest, isLast: bool, max: nat, k: nat)
    requires max > 0
    ensures var n, polls := SentCount(t, isLast, max, Some(k)), Polls(t, max);
      if k < polls then k <= n <= 1 + k else polls <= n <= polls + 1 + (if isLast then 1 else 0)
  {
    PollsAreMessages(t, max);
  }

  /** After the cancellation only the header of each remaining task is still sent. */
  lemma {:induction false} CancelledSendsHeaders(ts: seq<TaskRequest>, max: nat)
    requires max > 0
    ensures Emitted(ts, max, Some(0)) == HeadersOf(ts)
    decreases |ts|
  {
    if ts != [] {
      CancelledSendsHeaders(ts[1..], max);
      assert HeadersOf(ts) == [InitTask(Header(HeaderOf(ts[0])))] + HeadersOf(ts[1..]);
    }
  }

  /**
   * The exact shape of a cancelled run: the tasks before some task n are complete,
   * task n stops after its header and some of its chunks, later tasks send a bare header.
   */
  ghost predicate CancelledAt(ts: seq<TaskRequest>, max: nat, out: seq<TaskMessage>, n: nat, chunks: nat)
    requires max > 0 && n < |ts|
  {
    && chunks <= |Cut(ts[n], max, true).chunks|
    && out == Blocks(Cuts(ts[..n], max, true))
              + [InitTask(Header(HeaderOf(ts[n])))] + DataMessages(Cut(ts[n], max, true).chunks[..chunks])
              + HeadersOf(ts[n + 1..])
  }

  /** The cut task: its header and the chunks polled for in time. */
  lemma CutShort(t: TaskRequest, isLast: bool, max: nat, left: nat)
    requires max > 0 && left < Polls(t, max)
    ensures var c, count := Cut(t, max, true), SentCount(t, isLast, max, Some(left));
      && count - 1 <= |c.chunks|
      && FullTask(t, isLast, max, true)[..count]
         == [InitTask(Header(HeaderOf(t)))] + DataMessages(c.chunks[..count - 1])
  {
    var c, count := Cut(t, max, true), SentCount(t, isLast, max, Some(left));
    DataMessagesPrefix(c.chunks, count - 1);
    assert FullTask(t, isLast, max, true)[..count] == Block(c)[..count];
  }

  lemma CancelledTail(ts: seq<TaskRequest>, max: nat, left: nat)
    requires max > 0 && ts != [] && left < Polls(ts[0], max)
    ensures Emitted(ts, max, Some(left))
            == FullTask(ts[0], |ts| == 1, max, true)[..SentCount(ts[0], |ts| == 1, max, Some(left))]
               + HeadersOf(ts[1..])
  {
    CancelledSendsHeaders(ts[1..], max);
    assert Drop(Some(left), Polls(ts[0], max)) == Some(0);
  }

  lemma CancelledInFirst(ts: seq<TaskRequest>, max: nat, left: nat)
    requires max > 0 && ts != [] && left < Polls(ts[0], max)
    ensures CancelledAt(ts, max, Emitted(ts, max, Some(left)), 0, SentCount(ts[0], |ts| == 1, max, Some(left)) - 1)
  {
    CutShort(ts[0], |ts| == 1, max, left);
    CancelledTail(ts, max, left);
    assert Blocks(Cuts(ts[..0], max, true)) == [];
  }

  lemma CancelledLater(ts: seq<TaskRequest>, max: nat, out: seq<TaskMessage>, n: nat, chunks: nat)
    requires max > 0 && ts != [] && n < |ts| - 1 && CancelledAt(ts[1..], max, out, n, chunks)
    ensures CancelledAt(ts, max, Block(Cut(ts[0], max, true)) + out, n + 1, chunks)
  {
    var first, rest := Block(Cut(ts[0], max, true)), Blocks(Cuts(ts[1..][..n], max, true));
    BlocksOfFront(ts, max, n);
    assert ts[1..][n + 1..] == ts[n + 2..];
    var head := [InitTask(Header(HeaderOf(ts[n + 1])))];
    var data := DataMessages(Cut(ts[n + 1], max, true).chunks[..chunks]);
    Assoc(first, rest, head);
    Assoc(first, rest + head, data);
    Assoc(first, rest + head + data, HeadersOf(ts[n + 2..]));
  }

  lemma BlocksOfFront(ts: seq<TaskRequest>, max: nat, n: nat)
    requires max > 0 && n < |ts|
    ensures Blocks(Cuts(ts[..n + 1], max, true)) == Block(Cut(ts[0], max, true)) + Blocks(Cuts(ts[1..][..n], max, true))
  {
    var front := Cuts(ts[..n + 1], max, true);
    assert front[1..] == Cuts(ts[1..][..n], max, true);
  }

  lemma {:induction false} DisturbedShape(ts: seq<TaskRequest>, max: nat, left: Option<nat>)
    returns (n: nat, chunks: nat)
    requires max > 0 && !Undisturbed(ts, max, left)
    ensures n < |ts| && CancelledAt(ts, max, Emitted(ts, max, left), n, chunks)
    decreases |ts|
  {
    if left.value < Polls(ts[0], max) {
      n, chunks := 0, SentCount(ts[0], |ts| == 1, max, left) - 1;
      CancelledInFirst(ts, max, left.value);
    } else {
      var left' := Drop(left, Polls(ts[0], max));
      n, chunks := DisturbedShape(ts[1..], max, left');
      assert FullTask(ts[0], false, max, true) == Block(Cut(ts[0], max, true));
      CancelledLater(ts, max, Emitted(ts[1..], max, left'), n, chunks);
      n := n + 1;
    }
  }

  lemma NeedsLastTask(ms: seq<TaskMessage>)
    requires ms != []
    ensures Decode(ms).Some? ==> InitTask(LastTask) in ms
  {
    if Decode(ms).Some? {
      DecodeIffGrammar(ms, Decode(ms).value);
      var cs: seq<CutTask> :| ms == Grammar(cs) && Decode(ms).value == Wholes(cs);
      assert ms[|ms| - 1] == InitTask(LastTask);
    }
  }

  /**
   * Cancellation safety.  For a non-empty list the following are one and the same:
   * the token survived the run, LastTask was sent, the stream is the complete one,
   * the stream decodes.  A stream that decodes decodes to all the tasks.
   */
  lemma CancellationSafety(ts: seq<TaskRequest>, max: nat, left: Option<nat>)
    requires max > 0 && ts != []
    ensures Undisturbed(ts, max, left) <==> InitTask(LastTask) in Emitted(ts, max, left)
    ensures Undisturbed(ts, max, left) <==> Emitted(ts, max, left) == Grammar(Cuts(ts, max, true))
    ensures Undisturbed(ts, max, left) <==> Decode(Emitted(ts, max, left)).Some?
    ensures Undisturbed(ts, max, left) ==> Decode(Emitted(ts, max, left)) == Some(Sents(ts))
  {
    var out := Emitted(ts, max, left);
    var full := Grammar(Cuts(ts, max, true));
    assert full[|full| - 1] == InitTask(LastTask);
    if Undisturbed(ts, max, left) {
      UndisturbedIsComplete(ts, max, left);
      BodyRoundTrip(ts, max, true);
    } else {
      var n, chunks := DisturbedShape(ts, max, left);
      NoLastTaskInBlocks(Cuts(ts[..n], max, true));
      assert InitTask(LastTask) !in out;
      NeedsLastTask(out);
    }
  }

  /** A whole run of the C# client is read back as every task or as no submission at all. */
  lemma CancelledRunIsNeverMisread(s: string, o: Option<TaskOptions>, ts: seq<TaskRequest>, max: nat, left: Option<nat>)
    requires max > 0 && ts != []
    ensures DecodeClient(Framed(InitRequest(s, o), Emitted(ts, max, left)))
            == if Undisturbed(ts, max, left) then Some(Submission(s, o, Sents(ts))) else None
  {
    CancellationSafety(ts, max, left);
    DecodeFramed(s, o, Emitted(ts, max, left));
  }

  /** In every run, LastTask can only be the final message, and it is sent at most once. */
  lemma LastTaskIsLast(ts: seq<TaskRequest>, max: nat, left: Option<nat>, i: nat)
    requires max > 0 && i < |Emitted(ts, max, left)|
    requires Emitted(ts, max, left)[i] == InitTask(LastTask)
    ensures i == |Emitted(ts, max, left)| - 1
    ensures Emitted(ts, max, left) == Grammar(Cuts(ts, max, true))
  {
    assert ts != [];
    CancellationSafety(ts, max, left);
    NoLastTaskInBlocks(Cuts(ts, max, true));
  }

  // ---------------------------------------------------------------- the indexed C++ form

  /** The messages of one task, pushed one by one. */
  method TaskChunkStream(t: TaskRequest, isLast: bool, max: nat) returns (requests: seq<TaskMessage>)
    requires max > 0
    ensures requests == FullTask(t, isLast, max, true)
    ensures LaidOut(t, isLast, max, DataCount(t, max, true), requests)
  {
    requests := [InitTask(Header(TaskHeader(t.expectedOutputKeys, t.dataDependencies)))];
    if |t.payload| == 0 {
      requests := requests + [TaskPayload(Data([]))];
    }
    var start := 0;
    ghost var done := 0;
    ProgressStart(t, max, true, requests);
    while start < |t.payload|
      invariant 0 <= start && Progress(t, max, true, start, done, requests)
    {
      var chunkSize := Min(max, |t.payload| - start);
      ProgressStep(t, max, true, start, done, requests);
      requests := requests + [TaskPayload(Data(t.payload[start..start + chunkSize]))];
      start := start + chunkSize;
      done := done + 1;
    }
    ProgressEnd(t, isLast, max, true, done, requests);
    requests := requests + [TaskPayload(Complete)];
    if isLast {
      requests := requests + [InitTask(LastTask)];
    }
    FullTaskLaidOut(t, isLast, max, true);
  }

  /** The blocks the C++ client computes, one future each: Init, then one per task. */
  method ToRequestBlocks(ts: seq<TaskRequest>, sessionId: string, options: TaskOptions, max: nat)
    returns (blocks: seq<seq<ClientMessage>>)
    requires max > 0
    ensures |blocks| == |ts| + 1
    ensures Flatten(blocks) == Encode(sessionId, Some(options), ts, max)
  {
    ghost var all := Emitted(ts, max, None);
    ghost var sent: seq<TaskMessage> := [];
    RemainingStart(ts, max, None);
    var init := InitRequest(sessionId, Some(options));
    blocks := [[init]];
    for i := 0 to |ts|
      invariant |blocks| == i + 1
      invariant Flatten(blocks) == Framed(init, sent)
      invariant Remaining(ts, max, i, sent, None, all)
    {
      var ms := TaskChunkStream(ts[i], i == |ts| - 1, max);
      RemainingStep(ts, max, i, sent, None, ms, all);
      FlattenSnoc(blocks, Bodies(ms));
      FramedAppend(init, sent, ms);
      blocks := blocks + [Bodies(ms)];
      sent := sent + ms;
    }
    RemainingEnd(ts, max, sent, None, all);
    UndisturbedIsComplete(ts, max, None);
  }
}
