/**
 * The worker-side encoders of the submission stream.  They carry a communication
 * token on every message, and the C# form sends no chunk at all for an empty payload
 * where the C++ form sends one empty chunk.
 */
module WorkerEncoders {
  import opened Basics
  import opened Chunking
  import opened TaskStream
  import opened ClientEncoders
  import FutureWriter

  datatype WorkerBody = WorkerInit(options: Option<TaskOptions>) | WorkerTask(message: TaskMessage)
  datatype WorkerMessage = WorkerMessage(communicationToken: string, body: WorkerBody)

  function Stamp(token: string, ms: seq<TaskMessage>): (ws: seq<WorkerMessage>)
    ensures |ws| == |ms|
  {
    seq(|ms|, i requires 0 <= i < |ms| => WorkerMessage(token, WorkerTask(ms[i])))
  }

  function WorkerFramed(token: string, options: Option<TaskOptions>, ms: seq<TaskMessage>): seq<WorkerMessage> {
    [WorkerMessage(token, WorkerInit(options))] + Stamp(token, ms)
  }

  lemma WorkerFramedAppend(token: string, options: Option<TaskOptions>, a: seq<TaskMessage>, b: seq<TaskMessage>)
    ensures WorkerFramed(token, options, a) + Stamp(token, b) == WorkerFramed(token, options, a + b)
  {
  }

  /** What a worker sends; only `keepEmpty` distinguishes C++ (true) from C# (false). */
  function WorkerEncode(token: string, options: Option<TaskOptions>, ts: seq<TaskRequest>, max: nat, keepEmpty: bool)
    : seq<WorkerMessage>
    requires max > 0
  {
    WorkerFramed(token, options, Grammar(Cuts(ts, max, keepEmpty)))
  }

  /** What is out once the tasks before i are: their blocks, and LastTask when i is the end. */
  function SentPart(ts: seq<TaskRequest>, max: nat, keepEmpty: bool, i: nat): seq<TaskMessage>
    requires max > 0 && i <= |ts|
  {
    Blocks(Cuts(ts[..i], max, keepEmpty)) + if i == |ts| && ts != [] then [InitTask(LastTask)] else []
  }

  lemma SentPartStep(ts: seq<TaskRequest>, max: nat, keepEmpty: bool, i: nat)
    requires max > 0 && i < |ts|
    ensures SentPart(ts, max, keepEmpty, i + 1)
            == SentPart(ts, max, keepEmpty, i) + FullTask(ts[i], i == |ts| - 1, max, keepEmpty)
  {
    var c, before := Cut(ts[i], max, keepEmpty), Blocks(Cuts(ts[..i], max, keepEmpty));
    assert Cuts(ts[..i + 1], max, keepEmpty) == Cuts(ts[..i], max, keepEmpty) + [c];
    BlocksSnoc(Cuts(ts[..i], max, keepEmpty), c);
    assert SentPart(ts, max, keepEmpty, i) == before;
    Assoc(before, Block(c), if i == |ts| - 1 then [InitTask(LastTask)] else []);
  }

  lemma SentPartEnds(ts: seq<TaskRequest>, max: nat, keepEmpty: bool)
    requires max > 0
    ensures SentPart(ts, max, keepEmpty, |ts|) == Grammar(Cuts(ts, max, keepEmpty))
    ensures SentPart(ts, max, keepEmpty, 0) == []
  {
    assert ts[..|ts|] == ts;
    assert Cuts(ts[..0], max, keepEmpty) == [];
  }

  /** A worker starts with the Init message and is done behind the last task. */
  lemma WorkerEnds(token: string, options: Option<TaskOptions>, ts: seq<TaskRequest>, max: nat, keepEmpty: bool)
    requires max > 0
    ensures WorkerFramed(token, options, SentPart(ts, max, keepEmpty, 0)) == [WorkerMessage(token, WorkerInit(options))]
    ensures WorkerFramed(token, options, SentPart(ts, max, keepEmpty, |ts|))
            == WorkerEncode(token, options, ts, max, keepEmpty)
  {
    SentPartEnds(ts, max, keepEmpty);
  }

  /** One more task behind what a worker has sent. */
  lemma WorkerStep(token: string, options: Option<TaskOptions>, ts: seq<TaskRequest>, max: nat, keepEmpty: bool, i: nat)
    requires max > 0 && i < |ts|
    ensures WorkerFramed(token, options, SentPart(ts, max, keepEmpty, i))
              + Stamp(token, FullTask(ts[i], i == |ts| - 1, max, keepEmpty))
            == WorkerFramed(token, options, SentPart(ts, max, keepEmpty, i + 1))
  {
    SentPartStep(ts, max, keepEmpty, i);
    WorkerFramedAppend(token, options, SentPart(ts, max, keepEmpty, i),
                       FullTask(ts[i], i == |ts| - 1, max, keepEmpty));
  }

  lemma StampConcat(token: string, a: seq<TaskMessage>, b: seq<TaskMessage>)
    ensures Stamp(token, a + b) == Stamp(token, a) + Stamp(token, b)
  {
  }

  lemma StampOne(token: string, m: TaskMessage)
    ensures Stamp(token, [m]) == [WorkerMessage(token, WorkerTask(m))]
  {
  }

  /** A worker's chunk loop standing at `start` after `done` turns. */
  ghost predicate StampedProgress(t: TaskRequest, max: nat, keepEmpty: bool, token: string, start: nat, done: nat,
                                  out: seq<WorkerMessage>)
    requires max > 0
  {
    Reached(t.payload, max, start, done) && out == Stamp(token, Begun(t, max, keepEmpty, done))
  }

  lemma StampedStart(t: TaskRequest, max: nat, keepEmpty: bool, token: string)
    requires max > 0
    ensures var head, hole := InitTask(Header(HeaderOf(t))), TaskPayload(Data([]));
      StampedProgress(t, max, keepEmpty, token, 0, 0,
                      [WorkerMessage(token, WorkerTask(head))]
                      + if t.payload == [] && keepEmpty then [WorkerMessage(token, WorkerTask(hole))] else [])
  {
    var head, hole := [InitTask(Header(HeaderOf(t)))], [TaskPayload(Data([]))];
    var sent := head + if t.payload == [] && keepEmpty then hole else [];
    ProgressStart(t, max, keepEmpty, sent);
    StampConcat(token, head, if t.payload == [] && keepEmpty then hole else []);
    StampOne(token, head[0]);
    StampOne(token, hole[0]);
  }

  lemma StampedStep(t: TaskRequest, max: nat, keepEmpty: bool, token: string, start: nat, done: nat,
                    out: seq<WorkerMessage>)
    requires max > 0 && StampedProgress(t, max, keepEmpty, token, start, done, out) && start < |t.payload|
    ensures var next := start + Min(max, |t.payload| - start);
      StampedProgress(t, max, keepEmpty, token, next, done + 1,
                      out + [WorkerMessage(token, WorkerTask(TaskPayload(Data(t.payload[start..next]))))])
  {
    var part := TaskPayload(Data(t.payload[start..start + Min(max, |t.payload| - start)]));
    ProgressStep(t, max, keepEmpty, start, done, Begun(t, max, keepEmpty, done));
    StampConcat(token, Begun(t, max, keepEmpty, done), [part]);
    StampOne(token, part);
  }

  lemma StampedEnd(t: TaskRequest, isLast: bool, max: nat, keepEmpty: bool, token: string, done: nat,
                   out: seq<WorkerMessage>)
    requires max > 0 && StampedProgress(t, max, keepEmpty, token, |t.payload|, done, out)
    ensures out + [WorkerMessage(token, WorkerTask(TaskPayload(Complete)))]
              + (if isLast then [WorkerMessage(token, WorkerTask(InitTask(LastTask)))] else [])
            == Stamp(token, FullTask(t, isLast, max, keepEmpty))
  {
    var sent, end := Begun(t, max, keepEmpty, done), [TaskPayload(Complete)];
    var last := if isLast then [InitTask(LastTask)] else [];
    ProgressEnd(t, isLast, max, keepEmpty, done, sent);
    StampConcat(token, sent + end, last);
    StampConcat(token, sent, end);
    StampOne(token, TaskPayload(Complete));
    StampOne(token, InitTask(LastTask));
  }

  /** The C# worker iterator of one task: no branch for an empty payload. */
  method CSharpTask(t: TaskRequest, isLast: bool, token: string, max: nat) returns (out: seq<WorkerMessage>)
    requires max > 0
    ensures out == Stamp(token, FullTask(t, isLast, max, false))
  {
    out := [WorkerMessage(token, WorkerTask(InitTask(Header(TaskHeader(t.expectedOutputKeys, t.dataDependencies)))))];
    var start := 0;
    ghost var done := 0;
    StampedStart(t, max, false, token);
    while start < |t.payload|
      invariant 0 <= start && StampedProgress(t, max, false, token, start, done, out)
    {
      var chunkSize := Min(max, |t.payload| - start);
      StampedStep(t, max, false, token, start, done, out);
      out := out + [WorkerMessage(token, WorkerTask(TaskPayload(Data(t.payload[start..start + chunkSize]))))];
      start := start + chunkSize;
      done := done + 1;
    }
    StampedEnd(t, isLast, max, false, token, done, out);
    out := out + [WorkerMessage(token, WorkerTask(TaskPayload(Complete)))];
    if isLast {
      out := out + [WorkerMessage(token, WorkerTask(InitTask(LastTask)))];
    }
  }

  /** The C++ worker block of one task. */
  method CppTask(t: TaskRequest, isLast: bool, token: string, max: nat) returns (out: seq<WorkerMessage>)
    requires max > 0
    ensures out == Stamp(token, FullTask(t, isLast, max, true))
  {
    out := [WorkerMessage(token, WorkerTask(InitTask(Header(TaskHeader(t.expectedOutputKeys, t.dataDependencies)))))];
    if |t.payload| == 0 {
      out := out + [WorkerMessage(token, WorkerTask(TaskPayload(Data([]))))];
    }
    var start := 0;
    ghost var done := 0;
    StampedStart(t, max, true, token);
    while start < |t.payload|
      invariant 0 <= start && StampedProgress(t, max, true, token, start, done, out)
    {
      var chunkSize := Min(max, |t.payload| - start);
      StampedStep(t, max, true, token, start, done, out);
      out := out + [WorkerMessage(token, WorkerTask(TaskPayload(Data(t.payload[start..start + chunkSize]))))];
      start := start + chunkSize;
      done := done + 1;
    }
    StampedEnd(t, isLast, max, true, token, done, out);
    out := out + [WorkerMessage(token, WorkerTask(TaskPayload(Complete)))];
    if isLast {
      out := out + [WorkerMessage(token, WorkerTask(InitTask(LastTask)))];
    }
  }

  /** One task of a worker by position: a C# worker sends no data message for an empty payload, a C++ worker one. */
  lemma WorkerLayout(t: TaskRequest, isLast: bool, token: string, max: nat)
    requires max > 0
    ensures var n, out := CeilDiv(|t.payload|, max), Stamp(token, FullTask(t, isLast, max, false));
      exists ms :: out == Stamp(token, ms) && LaidOut(t, isLast, max, n, ms)
    ensures var n, out := CeilDiv(|t.payload|, max), Stamp(token, FullTask(t, isLast, max, true));
      exists ms :: out == Stamp(token, ms) && LaidOut(t, isLast, max, if t.payload == [] then 1 else n, ms)
  {
    FullTaskLaidOut(t, isLast, max, false);
    FullTaskLaidOut(t, isLast, max, true);
  }

  /** The C# worker stream, one task of look-ahead. */
  method CSharpStream(ts: seq<TaskRequest>, options: Option<TaskOptions>, token: string, max: nat)
    returns (out: seq<WorkerMessage>)
    requires max > 0
    ensures out == WorkerEncode(token, options, ts, max, false)
  {
    if options.Some? {
      out := [WorkerMessage(token, WorkerInit(options))];
    } else {
      out := [WorkerMessage(token, WorkerInit(None))];
    }
    WorkerEnds(token, options, ts, max, false);
    var next := 0;
    if next == |ts| {
      return;
    }
    var currentRequest := ts[next];
    next := 1;
    while next < |ts|
      invariant 1 <= next <= |ts| && currentRequest == ts[next - 1]
      invariant out == WorkerFramed(token, options, SentPart(ts, max, false, next - 1))
    {
      var block := CSharpTask(currentRequest, false, token, max);
      WorkerStep(token, options, ts, max, false, next - 1);
      out := out + block;
      currentRequest := ts[next];
      next := next + 1;
    }
    var block := CSharpTask(currentRequest, true, token, max);
    WorkerStep(token, options, ts, max, false, next - 1);
    out := out + block;
  }

  /** The C++ worker blocks, one future each. */
  method CppBlocks(ts: seq<TaskRequest>, options: TaskOptions, token: string, max: nat)
    returns (blocks: seq<seq<WorkerMessage>>)
    requires max > 0
    ensures |blocks| == |ts| + 1
    ensures Flatten(blocks) == WorkerEncode(token, Some(options), ts, max, true)
  {
    WorkerEnds(token, Some(options), ts, max, true);
    blocks := [[WorkerMessage(token, WorkerInit(Some(options)))]];
    for i := 0 to |ts|
      invariant |blocks| == i + 1
      invariant Flatten(blocks) == WorkerFramed(token, Some(options), SentPart(ts, max, true, i))
    {
      var block := CppTask(ts[i], i == |ts| - 1, token, max);
      WorkerStep(token, Some(options), ts, max, true, i);
      FlattenSnoc(blocks, block);
      blocks := blocks + [block];
    }
  }

  // ---------------------------------------------------------------- what the two have in common

  datatype WorkerSubmission = WorkerSubmission(token: string, options: Option<TaskOptions>, tasks: seq<SentTask>)

  /** Init first, then only task messages, all with the token of the Init message. */
  predicate OneToken(ws: seq<WorkerMessage>) {
    && ws != [] && ws[0].body.WorkerInit?
    && forall i :: 1 <= i < |ws| ==> ws[i].body.WorkerTask? && ws[i].communicationToken == ws[0].communicationToken
  }

  function MessagesOf(ws: seq<WorkerMessage>): (ms: seq<TaskMessage>)
    requires OneToken(ws)
    ensures |ms| == |ws| - 1
  {
    seq(|ws| - 1, i requires 0 <= i < |ws| - 1 => ws[i + 1].body.message)
  }

  /** A reader that also checks the token. */
  function DecodeWorker(ws: seq<WorkerMessage>): Option<WorkerSubmission> {
    if !OneToken(ws) then None
    else
      match Decode(MessagesOf(ws))
      case None => None
      case Some(ts) => Some(WorkerSubmission(ws[0].communicationToken, ws[0].body.options, ts))
  }

  lemma FramedMessages(token: string, options: Option<TaskOptions>, ms: seq<TaskMessage>)
    ensures OneToken(WorkerFramed(token, options, ms)) && MessagesOf(WorkerFramed(token, options, ms)) == ms
  {
  }

  lemma WorkerRoundTrip(token: string, options: Option<TaskOptions>, ts: seq<TaskRequest>, max: nat, keepEmpty: bool)
    requires max > 0
    ensures DecodeWorker(WorkerEncode(token, options, ts, max, keepEmpty))
            == Some(WorkerSubmission(token, options, Sents(ts)))
    ensures var tasks := DecodeWorker(WorkerEncode(token, options, ts, max, keepEmpty)).value.tasks;
      && |tasks| == |ts|
      && forall i :: 0 <= i < |ts| ==>
        tasks[i] == SentTask(TaskHeader(ts[i].expectedOutputKeys, ts[i].dataDependencies), ts[i].payload)
  {
    BodyRoundTrip(ts, max, keepEmpty);
    FramedMessages(token, options, Grammar(Cuts(ts, max, keepEmpty)));
  }

  /** A stream without its empty data chunks. */
  function WithoutEmptyChunks(ms: seq<TaskMessage>): seq<TaskMessage> {
    if ms == [] then []
    else (if ms[0] == TaskPayload(Data([])) then [] else [ms[0]]) + WithoutEmptyChunks(ms[1..])
  }

  lemma {:induction false} WithoutEmptyConcat(a: seq<TaskMessage>, b: seq<TaskMessage>)
    ensures WithoutEmptyChunks(a + b) == WithoutEmptyChunks(a) + WithoutEmptyChunks(b)
  {
    if a == [] {
      assert a + b == b;
    } else {
      WithoutEmptyConcat(a[1..], b);
      assert (a + b)[1..] == a[1..] + b;
      Assoc(if a[0] == TaskPayload(Data([])) then [] else [a[0]], WithoutEmptyChunks(a[1..]), WithoutEmptyChunks(b));
    }
  }

  lemma {:induction false} NothingToDrop(ms: seq<TaskMessage>)
    requires TaskPayload(Data([])) !in ms
    ensures WithoutEmptyChunks(ms) == ms
  {
    if ms != [] {
      NothingToDrop(ms[1..]);
    }
  }

  lemma BlockWithoutEmpty(t: TaskRequest, max: nat)
    requires max > 0
    ensures WithoutEmptyChunks(Block(Cut(t, max, true))) == Block(Cut(t, max, false))
  {
    ChunksIsChunking(t.payload, max);
    NothingToDrop(Block(Cut(t, max, false)));
    if t.payload == [] {
      var head, end := [InitTask(Header(HeaderOf(t)))], [TaskPayload(Complete)];
      var hole := [TaskPayload(Data([]))];
      assert Block(Cut(t, max, true)) == head + hole + end;
      assert Block(Cut(t, max, false)) == head + end;
      WithoutEmptyConcat(head + hole, end);
      WithoutEmptyConcat(head, hole);
      WithoutEmptyConcat(head, end);
      assert WithoutEmptyChunks(hole) == [];
      assert WithoutEmptyChunks(head) == head;
    }
  }

  lemma {:induction false} BlocksWithoutEmpty(ts: seq<TaskRequest>, max: nat)
    requires max > 0
    ensures WithoutEmptyChunks(Blocks(Cuts(ts, max, true))) == Blocks(Cuts(ts, max, false))
  {
    if ts != [] {
      BlocksWithoutEmpty(ts[1..], max);
      BlockWithoutEmpty(ts[0], max);
      assert Cuts(ts, max, true)[1..] == Cuts(ts[1..], max, true);
      assert Cuts(ts, max, false)[1..] == Cuts(ts[1..], max, false);
      WithoutEmptyConcat(Block(Cut(ts[0], max, true)), Blocks(Cuts(ts[1..], max, true)));
    }
  }

  /** The two workers differ by empty chunks only, and read back the same. */
  lemma WorkersAgree(token: string, options: Option<TaskOptions>, ts: seq<TaskRequest>, max: nat)
    requires max > 0
    ensures WithoutEmptyChunks(Grammar(Cuts(ts, max, true))) == Grammar(Cuts(ts, max, false))
    ensures DecodeWorker(WorkerEncode(token, options, ts, max, true))
            == DecodeWorker(WorkerEncode(token, options, ts, max, false))
    ensures WorkerEncode(token, options, ts, max, true) == WorkerEncode(token, options, ts, max, false)
            <==> forall i :: 0 <= i < |ts| ==> ts[i].payload != []
  {
    WorkerRoundTrip(token, options, ts, max, true);
    WorkerRoundTrip(token, options, ts, max, false);
    BlocksWithoutEmpty(ts, max);
    var end := [InitTask(LastTask)];
    if ts != [] {
      WithoutEmptyConcat(Blocks(Cuts(ts, max, true)), end);
      assert WithoutEmptyChunks(end) == end;
    }
    SameOnlyWithoutEmptyPayloads(token, options, ts, max);
  }

  lemma {:induction false} BlocksSize(ts: seq<TaskRequest>, max: nat)
    requires max > 0
    ensures |Blocks(Cuts(ts, max, false))| <= |Blocks(Cuts(ts, max, true))|
    ensures |Blocks(Cuts(ts, max, false))| == |Blocks(Cuts(ts, max, true))|
            <==> forall i :: 0 <= i < |ts| ==> ts[i].payload != []
  {
    if ts != [] {
      BlocksSize(ts[1..], max);
      assert Cuts(ts, max, true)[1..] == Cuts(ts[1..], max, true);
      assert Cuts(ts, max, false)[1..] == Cuts(ts[1..], max, false);
      assert forall i :: 1 <= i < |ts| ==> ts[i] == ts[1..][i - 1];
      assert forall i :: 0 <= i < |ts[1..]| ==> ts[1..][i] == ts[i + 1];
    }
  }

  lemma SameOnlyWithoutEmptyPayloads(token: string, options: Option<TaskOptions>, ts: seq<TaskRequest>, max: nat)
    requires max > 0
    ensures WorkerEncode(token, options, ts, max, true) == WorkerEncode(token, options, ts, max, false)
            <==> forall i :: 0 <= i < |ts| ==> ts[i].payload != []
  {
    BlocksSize(ts, max);
    if forall i :: 0 <= i < |ts| ==> ts[i].payload != [] {
      assert Cuts(ts, max, true) == Cuts(ts, max, false);
    } else {
      assert |WorkerEncode(token, options, ts, max, true)| != |WorkerEncode(token, options, ts, max, false)|;
    }
  }

  /** A finished C++ worker run, however its futures were scheduled, decodes like the C# worker's stream. */
  lemma WorkerLookAheadAgreesConcurrent(ts: seq<TaskRequest>, options: TaskOptions, token: string, max: nat,
                                        blocks: seq<seq<WorkerMessage>>, steps: seq<FutureWriter.Step>,
                                        w: FutureWriter.Writer<WorkerMessage>)
    requires max > 0
    requires Flatten(blocks) == WorkerEncode(token, Some(options), ts, max, true)
    requires FutureWriter.Run(blocks, steps, w) && forall step :: !FutureWriter.Enabled(w, step)
    ensures w.written == WorkerEncode(token, Some(options), ts, max, true)
    ensures DecodeWorker(w.written) == DecodeWorker(WorkerEncode(token, Some(options), ts, max, false))
            == Some(WorkerSubmission(token, Some(options), Sents(ts)))
    ensures w.written == WorkerEncode(token, Some(options), ts, max, false)
            <==> forall i :: 0 <= i < |ts| ==> ts[i].payload != []
  {
    FutureWriter.OrderIsIrrelevant(blocks, steps, w);
    WorkersAgree(token, Some(options), ts, max);
    WorkerRoundTrip(token, Some(options), ts, max, true);
  }
}
