/**
 * Uploading a result in chunks, downloading it, and the two readers of a result reply stream.
 */
module ResultTransfer {
  import opened Basics
  import opened Chunking
  import opened WireOneof
  import StringView

  datatype UploadMessage = Identifier(sessionId: string, resultId: string) | DataPart(data: Bytes)

  function DataParts(chunks: seq<Bytes>): (ms: seq<UploadMessage>)
    ensures |ms| == |chunks|
  {
    seq(|chunks|, i requires 0 <= i < |chunks| => DataPart(chunks[i]))
  }

  /** The identifier, then the data in chunks. */
  function UploadMessages(sessionId: string, resultId: string, data: Bytes, max: nat): seq<UploadMessage>
    requires max > 0
  {
    [Identifier(sessionId, resultId)] + DataParts(Chunks(data, max))
  }

  /** A request stream that may break: it accepts `capacity` messages and then no more. */
  class UploadStream {
    var sent: seq<UploadMessage>
    const capacity: Option<nat>

    constructor (capacity: Option<nat>)
      ensures sent == [] && this.capacity == capacity
    {
      sent := [];
      this.capacity := capacity;
    }

    method Write(m: UploadMessage) returns (ok: bool)
      modifies this
      ensures ok == (capacity.None? || old(|sent|) < capacity.value)
      ensures sent == if ok then old(sent) + [m] else old(sent)
    {
      ok := capacity.None? || |sent| < capacity.value;
      if ok {
        sent := sent + [m];
      }
    }
  }

  function Accepted(capacity: Option<nat>, n: nat): nat {
    if capacity.None? || n <= capacity.value then n else capacity.value
  }

  lemma UploadStep(sessionId: string, resultId: string, data: Bytes, max: nat, start: nat, done: nat)
    requires max > 0 && Reached(data, max, start, done) && start < |data|
    ensures var next, all := start + Min(max, |data| - start), UploadMessages(sessionId, resultId, data, max);
      Reached(data, max, next, done + 1) && done + 1 < |all| && all[done + 1] == DataPart(data[start..next])
  {
    ChunkStep(data, max, start, done);
  }

  lemma UploadEnd(sessionId: string, resultId: string, data: Bytes, max: nat, done: nat)
    requires max > 0 && Reached(data, max, |data|, done)
    ensures |UploadMessages(sessionId, resultId, data, max)| == done + 1
    ensures done > 0 <==> data != []
  {
    ChunksTaken(data, max, done);
  }

  /** `payload.substr(pos, len)`, where the sum does not wrap. */
  method SubView(payload: Bytes, pos: nat, len: nat) returns (view: Bytes)
    requires |payload| < StringView.NPOS && pos <= |payload| && len <= StringView.NPOS
    requires len == StringView.NPOS || pos + len < StringView.SIZE_MODULUS
    ensures view == payload[pos..][..Min(len, |payload| - pos)]
  {
    var span := StringView.Substr(|payload|, pos, len);
    StringView.SubstrIsClampedSlice(|payload|, pos, len);
    view := payload[span.offset..span.offset + span.size];
  }

  /** How an upload ends: what was written, and whether no write of a data message failed. */
  datatype Upload = Upload(sent: seq<UploadMessage>, ok: bool)

  predicate HasRoom(sent: seq<UploadMessage>, capacity: Option<nat>) { capacity.None? || |sent| < capacity.value }

  /** The run of the upload loop that has written `sent` and still holds `payload`. */
  function UploadFrom(sent: seq<UploadMessage>, payload: Bytes, max: nat, capacity: Option<nat>): Upload
    requires max > 0
    decreases |payload|
  {
    if payload == [] then Upload(sent, true)
    else if !HasRoom(sent, capacity) then Upload(sent, false)
    else
      var size := Min(max, |payload|);
      UploadFrom(sent + [DataPart(payload[..size])], payload[size..], max, capacity)
  }

  lemma PartsCons(sent: seq<UploadMessage>, part: Bytes, rest: seq<Bytes>, n: nat)
    requires 0 < n <= 1 + |rest|
    ensures sent + [DataPart(part)] + DataParts(rest[..n - 1]) == sent + DataParts(([part] + rest)[..n])
  {
    assert ([part] + rest)[..n] == [part] + rest[..n - 1];
    assert DataParts([part] + rest[..n - 1]) == [DataPart(part)] + DataParts(rest[..n - 1]);
    Assoc(sent, [DataPart(part)], DataParts(rest[..n - 1]));
  }

  /** Such a run writes as many of the remaining chunks as there is room for. */
  lemma {:induction false} UploadRun(sent: seq<UploadMessage>, payload: Bytes, max: nat, capacity: Option<nat>,
                                     room: nat)
    requires max > 0 && (capacity.None? || |sent| <= capacity.value)
    requires var n := |Chunks(payload, max)|;
      room == if capacity.None? || |sent| + n <= capacity.value then n else capacity.value - |sent|
    ensures UploadFrom(sent, payload, max, capacity)
            == Upload(sent + DataParts(Chunks(payload, max)[..room]), room == |Chunks(payload, max)|)
    decreases |payload|
  {
    if payload == [] || !HasRoom(sent, capacity) {
      assert sent + [] == sent;
    } else {
      var size := Min(max, |payload|);
      var part, rest := payload[..size], Chunks(payload[size..], max);
      UploadRun(sent + [DataPart(part)], payload[size..], max, capacity, room - 1);
      PartsCons(sent, part, rest, room);
    }
  }

  lemma WholeUpload(sessionId: string, resultId: string, data: Bytes, max: nat, capacity: Option<nat>)
    requires max > 0
    ensures var all, first := UploadMessages(sessionId, resultId, data, max), [Identifier(sessionId, resultId)];
      var n := Accepted(capacity, |all|);
      UploadFrom(if capacity == Some(0) then [] else first, data, max, capacity)
        == Upload(all[..n], data == [] || n == |all|)
  {
    var chunks := Chunks(data, max);
    var first := [Identifier(sessionId, resultId)];
    if capacity == Some(0) {
      UploadRun([], data, max, capacity, 0);
      assert chunks[..0] == [] && DataParts([]) == [];
    } else {
      var n := Accepted(capacity, 1 + |chunks|);
      UploadRun(first, data, max, capacity, n - 1);
      assert first + DataParts(chunks[..n - 1]) == (first + DataParts(chunks))[..n];
    }
  }

  /**
   * The C++ upload: the payload view shrinks from the front.  The answer to the first
   * write is ignored, so an empty payload never reports a broken stream here.
   */
  method UploadShrinking(stream: UploadStream, sessionId: string, resultId: string, data: Bytes, max: nat)
    returns (ok: bool)
    requires max > 0 && stream.sent == []
    requires |data| < StringView.NPOS && max <= StringView.NPOS
    modifies stream
    ensures var all := UploadMessages(sessionId, resultId, data, max);
      && stream.sent == all[..Accepted(stream.capacity, |all|)]
      && (ok <==> data == [] || Accepted(stream.capacity, |all|) == |all|)
  {
    var _ := stream.Write(Identifier(sessionId, resultId));
    ghost var goal := UploadFrom(stream.sent, data, max, stream.capacity);
    assert stream.sent == if stream.capacity == Some(0) then [] else [Identifier(sessionId, resultId)];
    WholeUpload(sessionId, resultId, data, max, stream.capacity);
    var payload := data;
    while |payload| != 0
      invariant |payload| < StringView.NPOS
      invariant UploadFrom(stream.sent, payload, max, stream.capacity) == goal
      decreases |payload|
    {
      var chunk := SubView(payload, 0, max);
      assert chunk == payload[..Min(max, |payload|)];
      var written := stream.Write(DataPart(chunk));
      if !written {
        return false;
      }
      ghost var rest := payload[|chunk|..];
      payload := SubView(payload, |chunk|, StringView.NPOS);
      assert payload == rest;
    }
    ok := true;
  }

  /** The C# and Python upload: an index moves over the data. */
  method UploadIndexed(sessionId: string, resultId: string, data: Bytes, max: nat) returns (out: seq<UploadMessage>)
    requires max > 0
    ensures out == UploadMessages(sessionId, resultId, data, max)
  {
    ghost var all := UploadMessages(sessionId, resultId, data, max);
    out := [Identifier(sessionId, resultId)];
    var start := 0;
    ghost var done := 0;
    assert data[0..] == data;
    while start < |data|
      invariant 0 <= start && Reached(data, max, start, done)
      invariant 1 + done <= |all| && out == all[..1 + done]
    {
      var chunkSize := Min(max, |data| - start);
      UploadStep(sessionId, resultId, data, max, start, done);
      out := out + [DataPart(data[start..start + chunkSize])];
      start := start + chunkSize;
      done := done + 1;
    }
    UploadEnd(sessionId, resultId, data, max, done);
  }

  method Download(parts: seq<Bytes>) returns (received: Bytes)
    ensures received == Flatten(parts)
  {
    received := [];
    for i := 0 to |parts|
      invariant received == Flatten(parts[..i])
    {
      assert parts[..i + 1] == parts[..i] + [parts[i]];
      FlattenSnoc(parts[..i], parts[i]);
      received := received + parts[i];
    }
    assert parts[..|parts|] == parts;
  }

  /** What a store learns from an upload: the data messages after the identifier. */
  function Stored(ms: seq<UploadMessage>): Bytes {
    if ms == [] then [] else (if ms[0].DataPart? then ms[0].data else []) + Stored(ms[1..])
  }

  lemma {:induction false} StoredParts(chunks: seq<Bytes>)
    ensures Stored(DataParts(chunks)) == Flatten(chunks)
  {
    if chunks != [] {
      StoredParts(chunks[1..]);
      assert DataParts(chunks)[1..] == DataParts(chunks[1..]);
    }
  }

  /**
   * The identifier comes first; every data message is non-empty and within the bound;
   * however the stored bytes are cut for download, joining the pieces gives the data back.
   */
  lemma UploadThenDownload(sessionId: string, resultId: string, data: Bytes, max: nat, served: seq<Bytes>)
    requires max > 0
    requires Flatten(served) == Stored(UploadMessages(sessionId, resultId, data, max))
    ensures Flatten(served) == data
    ensures var ms := UploadMessages(sessionId, resultId, data, max);
      && ms[0] == Identifier(sessionId, resultId)
      && |ms| == 1 + CeilDiv(|data|, max)
      && (forall i :: 1 <= i < |ms| ==> ms[i].DataPart? && 0 < |ms[i].data| <= max)
      && forall i :: 0 <= i < CeilDiv(|data|, max) ==> ms[1 + i] == DataPart(Piece(data, max, i))
  {
    var ms := UploadMessages(sessionId, resultId, data, max);
    ChunksIsChunking(data, max);
    forall i | 0 <= i < CeilDiv(|data|, max)
      ensures ms[1 + i] == DataPart(Piece(data, max, i))
    {
      ChunkIsPiece(data, max, i);
    }
    StoredParts(Chunks(data, max));
    assert ms[1..] == DataParts(Chunks(data, max));
  }

  // ---------------------------------------------------------------- reading a result reply stream

  datatype Reply = ReplyChunk(chunk: WireChunk) | ReplyError | ReplyNotCompleted | ReplyUnset

  datatype Outcome = Received(data: Bytes) | Incomplete | InvalidChunk | TaskError | NotCompleted | InvalidReply

  /** A reply both readers go on after: a chunk with its oneof set. */
  predicate IsSetChunk(r: Reply) { r.ReplyChunk? && !r.chunk.ChunkUnset? }

  /** Reply i is the first that is no set chunk. */
  ghost predicate FirstFault(rs: seq<Reply>, i: nat) {
    i < |rs| && !IsSetChunk(rs[i]) && forall j :: 0 <= j < i ==> IsSetChunk(rs[j])
  }

  function ReplyData(r: Reply): Bytes {
    if r.ReplyChunk? && r.chunk.WireData? then r.chunk.data else []
  }

  function AllData(rs: seq<Reply>): Bytes {
    if rs == [] then [] else AllData(rs[..|rs| - 1]) + ReplyData(rs[|rs| - 1])
  }

  /** The data of a reply list: the data chunks joined, everything else skipped. */
  lemma {:induction false} AllDataIs(rs: seq<Reply>)
    ensures AllData(rs) == Flatten(seq(|rs|, i requires 0 <= i < |rs| =>
      if rs[i].ReplyChunk? && rs[i].chunk.WireData? then rs[i].chunk.data else []))
    decreases |rs|
  {
    if rs != [] {
      var n := |rs| - 1;
      var pieces := seq(|rs|, i requires 0 <= i < |rs| =>
        if rs[i].ReplyChunk? && rs[i].chunk.WireData? then rs[i].chunk.data else []);
      AllDataIs(rs[..n]);
      FlattenSnoc(pieces[..n], pieces[n]);
      assert pieces == pieces[..n] + [pieces[n]];
      assert pieces[..n] == seq(|rs[..n]|, i requires 0 <= i < |rs[..n]| =>
        if rs[..n][i].ReplyChunk? && rs[..n][i].chunk.WireData? then rs[..n][i].chunk.data else []);
    }
  }

  predicate CSharpAccepts(rs: seq<Reply>) { forall i :: 0 <= i < |rs| ==> rs[i].ReplyChunk? }

  /** C++ also wants every chunk set, and a completion marker at the very end. */
  predicate CppAccepts(rs: seq<Reply>) {
    && (forall i :: 0 <= i < |rs| ==> IsSetChunk(rs[i]))
    && rs != [] && rs[|rs| - 1].chunk.WireComplete?
  }

  /** The C++ reader: a data chunk after a completion marker makes the reply incomplete again. */
  method ReadCpp(rs: seq<Reply>) returns (o: Outcome)
    ensures o.Received? <==> CppAccepts(rs)
    ensures o.Received? ==> o.data == AllData(rs)
    ensures o == Incomplete <==> (forall i :: 0 <= i < |rs| ==> IsSetChunk(rs[i])) && !CppAccepts(rs)
    ensures forall i: nat :: FirstFault(rs, i) ==>
      && (o == InvalidChunk <==> rs[i].ReplyChunk?)
      && (o == TaskError <==> rs[i].ReplyError?)
      && (o == NotCompleted <==> rs[i].ReplyNotCompleted?)
      && (o == InvalidReply <==> rs[i].ReplyUnset?)
    ensures !o.Received? && o != Incomplete ==> exists i: nat :: FirstFault(rs, i)
  {
    var resultData: Bytes := [];
    var dataComplete := false;
    for i := 0 to |rs|
      invariant resultData == AllData(rs[..i])
      invariant forall j :: 0 <= j < i ==> IsSetChunk(rs[j])
      invariant dataComplete <==> i > 0 && rs[i - 1].chunk.WireComplete?
    {
      assert rs[..i + 1][..i] == rs[..i];
      assert !IsSetChunk(rs[i]) ==> FirstFault(rs, i);
      match rs[i] {
        case ReplyChunk(WireData(d)) =>
          resultData := resultData + d;
          dataComplete := false;
        case ReplyChunk(WireComplete(_)) =>
          dataComplete := true;
        case ReplyChunk(ChunkUnset) =>
          return InvalidChunk;
        case ReplyError =>
          return TaskError;
        case ReplyNotCompleted =>
          return NotCompleted;
        case ReplyUnset =>
          return InvalidReply;
      }
    }
    assert rs[..|rs|] == rs;
    if !dataComplete {
      return Incomplete;
    }
    o := Received(resultData);
  }

  /** The value of the generated DataComplete and Data properties of a chunk. */
  function DataCompleteProperty(c: WireChunk): bool { c.WireComplete? && c.flag }
  function DataProperty(c: WireChunk): Bytes { if c.WireData? then c.data else [] }

  /** The C# reader: nothing requires a completion marker. */
  method ReadCSharp(rs: seq<Reply>) returns (o: Option<Bytes>)
    ensures o.Some? <==> CSharpAccepts(rs)
    ensures o.Some? ==> o.value == AllData(rs)
  {
    var result: Bytes := [];
    for i := 0 to |rs|
      invariant result == AllData(rs[..i])
      invariant forall j :: 0 <= j < i ==> rs[j].ReplyChunk?
    {
      assert rs[..i + 1][..i] == rs[..i];
      match rs[i] {
        case ReplyChunk(c) =>
          if !DataCompleteProperty(c) {
            result := result + DataProperty(c);
          }
        case _ =>
          return None;
      }
    }
    assert rs[..|rs|] == rs;
    o := Some(result);
  }

  /** A well-formed reply: data chunks, then one completion marker. */
  function ReplyOf(parts: seq<Bytes>): seq<Reply> {
    DataReplies(parts) + [ReplyChunk(WireComplete(true))]
  }

  function DataReplies(parts: seq<Bytes>): (rs: seq<Reply>)
    ensures |rs| == |parts|
  {
    seq(|parts|, i requires 0 <= i < |parts| => ReplyChunk(WireData(parts[i])))
  }

  lemma {:induction false} AllDataOfParts(parts: seq<Bytes>)
    ensures AllData(DataReplies(parts)) == Flatten(parts)
    decreases |parts|
  {
    if parts != [] {
      var n := |parts| - 1;
      AllDataOfParts(parts[..n]);
      assert DataReplies(parts) == DataReplies(parts[..n]) + [ReplyChunk(WireData(parts[n]))];
      AllDataSnoc(DataReplies(parts[..n]), ReplyChunk(WireData(parts[n])));
      assert parts == parts[..n] + [parts[n]];
      FlattenSnoc(parts[..n], parts[n]);
    }
  }

  lemma PartsAreAccepted(parts: seq<Bytes>)
    ensures CSharpAccepts(DataReplies(parts)) && !CppAccepts(DataReplies(parts))
    ensures CSharpAccepts(ReplyOf(parts)) && CppAccepts(ReplyOf(parts))
  {
  }

  /**
   * On a well-formed reply both readers return the data.  Every strict prefix is refused by
   * the C++ reader, and accepted, silently truncated, by the C# reader.
   */
  lemma TruncatedReplies(parts: seq<Bytes>, k: nat)
    requires k <= |parts|
    ensures CppAccepts(ReplyOf(parts)) && CSharpAccepts(ReplyOf(parts)) && AllData(ReplyOf(parts)) == Flatten(parts)
    ensures !CppAccepts(ReplyOf(parts)[..k])
    ensures CSharpAccepts(ReplyOf(parts)[..k]) && AllData(ReplyOf(parts)[..k]) == Flatten(parts[..k])
  {
    PartsAreAccepted(parts);
    PartsAreAccepted(parts[..k]);
    AllDataOfParts(parts);
    AllDataOfParts(parts[..k]);
    AllDataSnoc(DataReplies(parts), ReplyChunk(WireComplete(true)));
    PrefixOfReply(parts, k);
  }

  lemma AllDataSnoc(rs: seq<Reply>, r: Reply)
    ensures AllData(rs + [r]) == AllData(rs) + ReplyData(r)
  {
  }

  lemma PrefixOfReply(parts: seq<Bytes>, k: nat)
    requires k <= |parts|
    ensures ReplyOf(parts)[..k] == DataReplies(parts[..k])
  {
  }
}
