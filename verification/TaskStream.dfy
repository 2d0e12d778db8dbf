/**
 * The task-submission stream: its messages, its grammar and a reference reader.
 *
 * A submission is an Init message, then for every task a header, data chunks and
 * a completion marker, then one LastTask marker.  No SDK contains a reader for
 * this stream; `ReadAll` below is the specification the encoders are held to.
 */
module TaskStream {
  import opened Basics
  import opened Chunking

  datatype TaskRequest = TaskRequest(
    expectedOutputKeys: seq<string>,
    dataDependencies: seq<string>,
    payload: Bytes,
    payloadName: string)

  datatype TaskHeader = TaskHeader(expectedOutputKeys: seq<string>, dataDependencies: seq<string>)
  datatype InitTaskRequest = Header(header: TaskHeader) | LastTask
  datatype DataChunk = Data(data: Bytes) | Complete
  datatype TaskMessage = InitTask(init: InitTaskRequest) | TaskPayload(chunk: DataChunk)

  /** What a reader of the stream learns about one task. */
  datatype SentTask = SentTask(header: TaskHeader, payload: Bytes)

  /** One task with a choice of how its payload is cut. */
  datatype CutTask = CutTask(header: TaskHeader, chunks: seq<Bytes>)

  function Whole(c: CutTask): SentTask { SentTask(c.header, Flatten(c.chunks)) }

  function Wholes(cs: seq<CutTask>): (ts: seq<SentTask>)
    ensures |ts| == |cs|
  {
    seq(|cs|, i requires 0 <= i < |cs| => Whole(cs[i]))
  }

  // ---------------------------------------------------------------- grammar

  function DataMessages(chunks: seq<Bytes>): (ms: seq<TaskMessage>)
    ensures |ms| == |chunks|
  {
    seq(|chunks|, i requires 0 <= i < |chunks| => TaskPayload(Data(chunks[i])))
  }

  /** The messages of one task. */
  function Block(c: CutTask): seq<TaskMessage> {
    [InitTask(Header(c.header))] + DataMessages(c.chunks) + [TaskPayload(Complete)]
  }

  function Blocks(cs: seq<CutTask>): seq<TaskMessage> {
    if cs == [] then [] else Block(cs[0]) + Blocks(cs[1..])
  }

  /** A whole submission after its Init message: an empty one sends nothing more. */
  function Grammar(cs: seq<CutTask>): seq<TaskMessage> {
    if cs == [] then [] else Blocks(cs) + [InitTask(LastTask)]
  }

  lemma {:induction false} BlocksConcat(a: seq<CutTask>, b: seq<CutTask>)
    ensures Blocks(a + b) == Blocks(a) + Blocks(b)
  {
    if a == [] {
      assert a + b == b;
    } else {
      BlocksConcat(a[1..], b);
      assert (a + b)[1..] == a[1..] + b;
      Assoc(Block(a[0]), Blocks(a[1..]), Blocks(b));
    }
  }

  lemma BlocksSnoc(a: seq<CutTask>, c: CutTask)
    ensures Blocks(a + [c]) == Blocks(a) + Block(c)
  {
    BlocksConcat(a, [c]);
    assert Blocks([c]) == Block(c);
  }

  lemma {:induction false} NoLastTaskInBlocks(cs: seq<CutTask>)
    ensures InitTask(LastTask) !in Blocks(cs)
  {
    if cs != [] {
      NoLastTaskInBlocks(cs[1..]);
    }
  }

  // ---------------------------------------------------------------- reference reader

  /** Where a reader stands: between two tasks, inside one, after LastTask, or out of the grammar. */
  datatype Reader =
    | Between(done: seq<SentTask>)
    | Inside(done: seq<SentTask>, current: SentTask)
    | Finished(done: seq<SentTask>)
    | Broken

  function ReadOne(r: Reader, m: TaskMessage): Reader {
    match (r, m)
    case (Between(done), InitTask(Header(h))) => Inside(done, SentTask(h, []))
    case (Between(done), InitTask(LastTask)) => if done == [] then Broken else Finished(done)
    case (Inside(done, t), TaskPayload(Data(d))) => Inside(done, t.(payload := t.payload + d))
    case (Inside(done, t), TaskPayload(Complete)) => Between(done + [t])
    case _ => Broken
  }

  function ReadAll(r: Reader, ms: seq<TaskMessage>): Reader
    decreases |ms|
  {
    if ms == [] then r else ReadAll(ReadOne(r, ms[0]), ms[1..])
  }

  /** The tasks of a complete body, or nothing when the stream is cut or malformed. */
  function Decode(ms: seq<TaskMessage>): Option<seq<SentTask>> {
    var r := ReadAll(Between([]), ms);
    if ms == [] then Some([]) else if r.Finished? then Some(r.done) else None
  }

  lemma {:induction false} ReadConcat(r: Reader, a: seq<TaskMessage>, b: seq<TaskMessage>)
    ensures ReadAll(r, a + b) == ReadAll(ReadAll(r, a), b)
    decreases |a|
  {
    if a == [] {
      assert a + b == b;
    } else {
      ReadConcat(ReadOne(r, a[0]), a[1..], b);
      assert (a + b)[1..] == a[1..] + b;
    }
  }

  lemma {:induction false} BrokenStays(ms: seq<TaskMessage>)
    ensures ReadAll(Broken, ms) == Broken
    decreases |ms|
  {
    if ms != [] {
      BrokenStays(ms[1..]);
    }
  }

  lemma {:induction false} ReadData(done: seq<SentTask>, t: SentTask, chunks: seq<Bytes>)
    ensures ReadAll(Inside(done, t), DataMessages(chunks)) == Inside(done, t.(payload := t.payload + Flatten(chunks)))
    decreases |chunks|
  {
    if chunks == [] {
      assert t.payload + [] == t.payload;
    } else {
      var t' := t.(payload := t.payload + chunks[0]);
      ReadData(done, t', chunks[1..]);
      assert DataMessages(chunks)[1..] == DataMessages(chunks[1..]);
      Assoc(t.payload, chunks[0], Flatten(chunks[1..]));
    }
  }

  lemma ReadBlock(done: seq<SentTask>, c: CutTask)
    ensures ReadAll(Between(done), Block(c)) == Between(done + [Whole(c)])
  {
    var head, data, end := [InitTask(Header(c.header))], DataMessages(c.chunks), [TaskPayload(Complete)];
    var t := SentTask(c.header, []);
    ReadConcat(Between(done), head + data, end);
    ReadConcat(Between(done), head, data);
    assert ReadAll(Between(done), head) == Inside(done, t);
    ReadData(done, t, c.chunks);
    assert t.(payload := t.payload + Flatten(c.chunks)) == Whole(c);
    assert ReadAll(Inside(done, Whole(c)), end) == Between(done + [Whole(c)]);
  }

  lemma {:induction false} ReadBlocks(done: seq<SentTask>, cs: seq<CutTask>)
    ensures ReadAll(Between(done), Blocks(cs)) == Between(done + Wholes(cs))
    decreases |cs|
  {
    if cs == [] {
      assert done + Wholes(cs) == done;
    } else {
      ReadConcat(Between(done), Block(cs[0]), Blocks(cs[1..]));
      ReadBlock(done, cs[0]);
      ReadBlocks(done + [Whole(cs[0])], cs[1..]);
      assert Wholes(cs) == [Whole(cs[0])] + Wholes(cs[1..]);
      Assoc(done, [Whole(cs[0])], Wholes(cs[1..]));
    }
  }

  lemma ReadGrammar(cs: seq<CutTask>)
    ensures Decode(Grammar(cs)) == Some(Wholes(cs))
  {
    if cs == [] {
      assert Wholes(cs) == [];
    } else {
      ReadBlocks([], cs);
      assert [] + Wholes(cs) == Wholes(cs);
      ReadConcat(Between([]), Blocks(cs), [InitTask(LastTask)]);
    }
  }

  // ---------------------------------------------------------------- the reader accepts the grammar and nothing else

  /** The cuts a reader in state r has seen, told as messages. */
  ghost predicate Explains(r: Reader, ms: seq<TaskMessage>, cs: seq<CutTask>, open: seq<Bytes>) {
    match r
    case Between(done) => ms == Blocks(cs) && done == Wholes(cs)
    case Inside(done, t) =>
      && ms == Blocks(cs) + [InitTask(Header(t.header))] + DataMessages(open)
      && done == Wholes(cs) && t.payload == Flatten(open)
    case Finished(done) => ms == Blocks(cs) + [InitTask(LastTask)] && done == Wholes(cs) && cs != []
    case Broken => true
  }

  lemma ExplainHeader(r: Reader, ms: seq<TaskMessage>, cs: seq<CutTask>, open: seq<Bytes>, h: TaskHeader)
    requires Explains(r, ms, cs, open) && r.Between?
    ensures Explains(ReadOne(r, InitTask(Header(h))), ms + [InitTask(Header(h))], cs, [])
  {
  }

  lemma ExplainData(r: Reader, ms: seq<TaskMessage>, cs: seq<CutTask>, open: seq<Bytes>, d: Bytes)
    requires Explains(r, ms, cs, open) && r.Inside?
    ensures Explains(ReadOne(r, TaskPayload(Data(d))), ms + [TaskPayload(Data(d))], cs, open + [d])
  {
    FlattenSnoc(open, d);
    assert DataMessages(open + [d]) == DataMessages(open) + [TaskPayload(Data(d))];
    Assoc(Blocks(cs) + [InitTask(Header(r.current.header))], DataMessages(open), [TaskPayload(Data(d))]);
  }

  lemma ExplainComplete(r: Reader, ms: seq<TaskMessage>, cs: seq<CutTask>, open: seq<Bytes>)
    requires Explains(r, ms, cs, open) && r.Inside?
    ensures Explains(ReadOne(r, TaskPayload(Complete)), ms + [TaskPayload(Complete)],
                     cs + [CutTask(r.current.header, open)], [])
  {
    var c := CutTask(r.current.header, open);
    BlocksSnoc(cs, c);
    assert Wholes(cs + [c]) == Wholes(cs) + [Whole(c)];
    var head, data, end := [InitTask(Header(c.header))], DataMessages(open), [TaskPayload(Complete)];
    Assoc(Blocks(cs), head, data);
    Assoc(Blocks(cs), head + data, end);
  }

  /** Every state the reader can reach is explained by the grammar. */
  lemma {:induction false} ReaderExplained(ms: seq<TaskMessage>) returns (cs: seq<CutTask>, open: seq<Bytes>)
    ensures Explains(ReadAll(Between([]), ms), ms, cs, open)
    decreases |ms|
  {
    if ms == [] {
      cs, open := [], [];
    } else {
      var n := |ms| - 1;
      var before, m := ms[..n], ms[n];
      assert before + [m] == ms;
      ReadConcat(Between([]), before, [m]);
      var r := ReadAll(Between([]), before);
      assert ReadAll(Between([]), ms) == ReadOne(r, m);
      cs, open := ReaderExplained(before);
      match (r, m)
      case (Between(_), InitTask(Header(h))) =>
        ExplainHeader(r, before, cs, open, h);
        open := [];
      case (Inside(_, _), TaskPayload(Data(d))) =>
        ExplainData(r, before, cs, open, d);
        open := open + [d];
      case (Inside(_, t), TaskPayload(Complete)) =>
        ExplainComplete(r, before, cs, open);
        cs, open := cs + [CutTask(t.header, open)], [];
      case _ =>
    }
  }

  /** Acceptance is exactly membership in the grammar, and the meaning is the uncut tasks. */
  lemma DecodeIffGrammar(ms: seq<TaskMessage>, ts: seq<SentTask>)
    ensures Decode(ms) == Some(ts) <==> exists cs: seq<CutTask> :: ms == Grammar(cs) && ts == Wholes(cs)
  {
    if Decode(ms) == Some(ts) {
      var cs, _ := ReaderExplained(ms);
      if ms == [] {
        assert Grammar([]) == ms && Wholes([]) == ts;
      } else {
        assert ms == Grammar(cs) && ts == Wholes(cs);
      }
    }
    if cs: seq<CutTask> :| ms == Grammar(cs) && ts == Wholes(cs) {
      ReadGrammar(cs);
    }
  }

  /** A complete body cut anywhere, except before its first message, no longer decodes. */
  lemma TruncationDetected(cs: seq<CutTask>, k: nat)
    requires k < |Grammar(cs)|
    ensures Decode(Grammar(cs)[..k]).Some? <==> k == 0
  {
    var ms := Grammar(cs);
    ReadGrammar(cs);
    var front, back := ms[..k], ms[k..];
    assert front + back == ms;
    ReadConcat(Between([]), front, back);
    if ReadAll(Between([]), front).Finished? {
      BrokenStays(back[1..]);
    }
  }

  // ---------------------------------------------------------------- what the encoders must produce

  function HeaderOf(t: TaskRequest): TaskHeader { TaskHeader(t.expectedOutputKeys, t.dataDependencies) }

  /** The part of a request the stream carries: everything but the payload name. */
  function Sent(t: TaskRequest): SentTask { SentTask(HeaderOf(t), t.payload) }

  function Sents(ts: seq<TaskRequest>): (ss: seq<SentTask>)
    ensures |ss| == |ts|
  {
    seq(|ts|, i requires 0 <= i < |ts| => Sent(ts[i]))
  }

  /** `keepEmpty`: an empty payload still travels as one empty chunk. */
  function Cut(t: TaskRequest, max: nat, keepEmpty: bool): CutTask
    requires max > 0
  {
    CutTask(HeaderOf(t), if t.payload == [] && keepEmpty then [[]] else Chunks(t.payload, max))
  }

  function Cuts(ts: seq<TaskRequest>, max: nat, keepEmpty: bool): (cs: seq<CutTask>)
    requires max > 0
    ensures |cs| == |ts|
  {
    seq(|ts|, i requires 0 <= i < |ts| => Cut(ts[i], max, keepEmpty))
  }

  /**
   * A cut task means the request without its payload name.  Its chunks are ceil(len / max)
   * many, non-empty, all of exactly max bytes except possibly the last; the one exception
   * is the single empty chunk of an empty payload under `keepEmpty`.
   */
  lemma CutMeaning(t: TaskRequest, max: nat, keepEmpty: bool)
    requires max > 0
    ensures Whole(Cut(t, max, keepEmpty))
            == SentTask(TaskHeader(t.expectedOutputKeys, t.dataDependencies), t.payload) == Sent(t)
    ensures var chunks := Cut(t, max, keepEmpty).chunks;
      if t.payload == [] && keepEmpty then chunks == [[]]
      else IsChunking(chunks, t.payload, max) && |chunks| == CeilDiv(|t.payload|, max)
  {
    ChunksIsChunking(t.payload, max);
    var empty: Bytes := [];
    assert Flatten([empty]) == empty;
  }

  lemma CutsMeaning(ts: seq<TaskRequest>, max: nat, keepEmpty: bool)
    requires max > 0
    ensures Wholes(Cuts(ts, max, keepEmpty)) == Sents(ts)
  {
    forall i | 0 <= i < |ts|
      ensures Wholes(Cuts(ts, max, keepEmpty))[i] == Sents(ts)[i]
    {
      CutMeaning(ts[i], max, keepEmpty);
    }
  }

  /** Every bound and either treatment of empty payloads carries the same tasks. */
  lemma BodyRoundTrip(ts: seq<TaskRequest>, max: nat, keepEmpty: bool)
    requires max > 0
    ensures Decode(Grammar(Cuts(ts, max, keepEmpty))) == Some(Sents(ts))
    ensures |Sents(ts)| == |ts|
    ensures forall i :: 0 <= i < |ts| ==>
      Sents(ts)[i] == SentTask(TaskHeader(ts[i].expectedOutputKeys, ts[i].dataDependencies), ts[i].payload)
  {
    ReadGrammar(Cuts(ts, max, keepEmpty));
    CutsMeaning(ts, max, keepEmpty);
  }

  // ---------------------------------------------------------------- one task, message by message

  /** Every message of one task. */
  function FullTask(t: TaskRequest, isLast: bool, max: nat, keepEmpty: bool): seq<TaskMessage>
    requires max > 0
  {
    Block(Cut(t, max, keepEmpty)) + if isLast then [InitTask(LastTask)] else []
  }

  /** The messages of one task by position: header, n pieces of the payload, completion, and LastTask. */
  ghost predicate LaidOut(t: TaskRequest, isLast: bool, max: nat, n: nat, ms: seq<TaskMessage>) {
    && |ms| == n + 2 + (if isLast then 1 else 0)
    && ms[0] == InitTask(Header(TaskHeader(t.expectedOutputKeys, t.dataDependencies)))
    && (forall i :: 0 <= i < n ==> ms[1 + i] == TaskPayload(Data(Piece(t.payload, max, i))))
    && ms[n + 1] == TaskPayload(Complete)
    && (isLast ==> ms[n + 2] == InitTask(LastTask))
  }

  /** Number of data messages: one for every started `max` bytes, and one for an empty payload under `keepEmpty`. */
  function DataCount(t: TaskRequest, max: nat, keepEmpty: bool): nat
    requires max > 0
  {
    if t.payload == [] && keepEmpty then 1 else CeilDiv(|t.payload|, max)
  }

  lemma FullTaskLaidOut(t: TaskRequest, isLast: bool, max: nat, keepEmpty: bool)
    requires max > 0
    ensures LaidOut(t, isLast, max, DataCount(t, max, keepEmpty), FullTask(t, isLast, max, keepEmpty))
  {
    var chunks := Cut(t, max, keepEmpty).chunks;
    CutMeaning(t, max, keepEmpty);
    forall i | 0 <= i < |chunks|
      ensures FullTask(t, isLast, max, keepEmpty)[1 + i] == TaskPayload(Data(Piece(t.payload, max, i)))
    {
      if t.payload != [] {
        ChunkIsPiece(t.payload, max, i);
      }
    }
  }

  /** The messages of a task once its chunk loop has made `done` turns. */
  function Begun(t: TaskRequest, max: nat, keepEmpty: bool, done: nat): seq<TaskMessage>
    requires max > 0 && done <= |Chunks(t.payload, max)|
  {
    [InitTask(Header(HeaderOf(t)))]
    + (if t.payload == [] && keepEmpty then [TaskPayload(Data([]))] else [])
    + DataMessages(Chunks(t.payload, max)[..done])
  }

  lemma DataMessagesPrefix(chunks: seq<Bytes>, n: nat)
    requires n <= |chunks|
    ensures DataMessages(chunks[..n]) == DataMessages(chunks)[..n]
  {
  }

  lemma BegunPart(t: TaskRequest, isLast: bool, max: nat, keepEmpty: bool, done: nat)
    requires max > 0 && done <= |Chunks(t.payload, max)|
    ensures |Begun(t, max, keepEmpty, done)| == 1 + done + (if t.payload == [] && keepEmpty then 1 else 0)
    ensures Begun(t, max, keepEmpty, done) == FullTask(t, isLast, max, keepEmpty)[..|Begun(t, max, keepEmpty, done)|]
  {
    if t.payload == [] {
      assert Chunks(t.payload, max) == [];
    }
    DataMessagesPrefix(Chunks(t.payload, max), done);
  }

  /** A chunk loop standing at `start` after `done` turns, with `out` sent. */
  ghost predicate Progress(t: TaskRequest, max: nat, keepEmpty: bool, start: nat, done: nat, out: seq<TaskMessage>)
    requires max > 0
  {
    Reached(t.payload, max, start, done) && out == Begun(t, max, keepEmpty, done)
  }

  lemma ProgressStart(t: TaskRequest, max: nat, keepEmpty: bool, out: seq<TaskMessage>)
    requires max > 0
    requires out == [InitTask(Header(HeaderOf(t)))]
                    + if t.payload == [] && keepEmpty then [TaskPayload(Data([]))] else []
    ensures Progress(t, max, keepEmpty, 0, 0, out)
  {
  }

  lemma ProgressStep(t: TaskRequest, max: nat, keepEmpty: bool, start: nat, done: nat, out: seq<TaskMessage>)
    requires max > 0 && Progress(t, max, keepEmpty, start, done, out) && start < |t.payload|
    ensures var next := start + Min(max, |t.payload| - start);
      Progress(t, max, keepEmpty, next, done + 1, out + [TaskPayload(Data(t.payload[start..next]))])
    ensures done < |Chunks(t.payload, max)|
  {
    var next := start + Min(max, |t.payload| - start);
    ChunkStep(t.payload, max, start, done);
    BegunStep(t, max, keepEmpty, done, t.payload[start..next]);
  }

  lemma BegunStep(t: TaskRequest, max: nat, keepEmpty: bool, done: nat, chunk: Bytes)
    requires max > 0 && done < |Chunks(t.payload, max)|
    requires Chunks(t.payload, max)[..done + 1] == Chunks(t.payload, max)[..done] + [chunk]
    ensures Begun(t, max, keepEmpty, done + 1) == Begun(t, max, keepEmpty, done) + [TaskPayload(Data(chunk))]
  {
    var before := Chunks(t.payload, max)[..done];
    assert DataMessages(before + [chunk]) == DataMessages(before) + [TaskPayload(Data(chunk))];
  }

  /** All chunks sent, only the completion marker is missing from the block. */
  lemma BegunWhole(t: TaskRequest, max: nat, keepEmpty: bool)
    requires max > 0
    ensures Begun(t, max, keepEmpty, |Chunks(t.payload, max)|) + [TaskPayload(Complete)]
            == Block(Cut(t, max, keepEmpty))
  {
    var chunks := Chunks(t.payload, max);
    assert chunks[..|chunks|] == chunks;
    if t.payload == [] {
      assert chunks == [] && DataMessages(chunks) == [];
      assert DataMessages([[]]) == [TaskPayload(Data([]))];
    }
  }

  lemma ProgressEnd(t: TaskRequest, isLast: bool, max: nat, keepEmpty: bool, done: nat, out: seq<TaskMessage>)
    requires max > 0 && Progress(t, max, keepEmpty, |t.payload|, done, out)
    ensures done == |Chunks(t.payload, max)|
    ensures out + [TaskPayload(Complete)] + (if isLast then [InitTask(LastTask)] else [])
            == FullTask(t, isLast, max, keepEmpty)
  {
    ChunksTaken(t.payload, max, done);
    BegunWhole(t, max, keepEmpty);
  }
}
