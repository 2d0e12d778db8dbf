/**
 * Rust conversions between the domain enums of the submission stream and the
 * protobuf oneofs, whose boolean markers and unset cases the enums do not have.
 */
module WireOneof {
  import opened Basics
  import opened TaskStream

  datatype WireInitTask = InitUnset | WireHeader(header: TaskHeader) | WireLastTask(flag: bool)
  datatype WireChunk = ChunkUnset | WireData(data: Bytes) | WireComplete(flag: bool)

  function LowerInit(m: InitTaskRequest): WireInitTask {
    match m
    case Header(h) => WireHeader(h)
    case LastTask => WireLastTask(true)
  }

  function RaiseInit(w: WireInitTask): InitTaskRequest {
    match w
    case WireHeader(h) => Header(h)
    case WireLastTask(_) => LastTask
    case InitUnset => Header(TaskHeader([], []))
  }

  function LowerChunk(c: DataChunk): WireChunk {
    match c
    case Data(d) => WireData(d)
    case Complete => WireComplete(true)
  }

  function RaiseChunk(w: WireChunk): DataChunk {
    match w
    case WireData(d) => Data(d)
    case WireComplete(_) => Complete
    case ChunkUnset => Data([])
  }

  datatype WireMessage = WireInit(init: WireInitTask) | WirePayload(chunk: WireChunk)

  function Lower(m: TaskMessage): WireMessage {
    match m
    case InitTask(i) => WireInit(LowerInit(i))
    case TaskPayload(c) => WirePayload(LowerChunk(c))
  }

  function Raise(w: WireMessage): TaskMessage {
    match w
    case WireInit(i) => InitTask(RaiseInit(i))
    case WirePayload(c) => TaskPayload(RaiseChunk(c))
  }

  /** The wire forms the enums can name: oneof set, markers true. */
  predicate Canonical(w: WireMessage) {
    match w
    case WireInit(i) => i.WireHeader? || i == WireLastTask(true)
    case WirePayload(c) => c.WireData? || c == WireComplete(true)
  }

  function LowerAll(ms: seq<TaskMessage>): (ws: seq<WireMessage>)
    ensures |ws| == |ms|
  {
    seq(|ms|, i requires 0 <= i < |ms| => Lower(ms[i]))
  }

  function RaiseAll(ws: seq<WireMessage>): (ms: seq<TaskMessage>)
    ensures |ms| == |ws|
  {
    seq(|ws|, i requires 0 <= i < |ws| => Raise(ws[i]))
  }

  /** Domain to wire and back is the identity; wire to domain and back is, exactly on canonical messages. */
  lemma WireRoundTrip(ms: seq<TaskMessage>, w: WireMessage)
    ensures RaiseAll(LowerAll(ms)) == ms
    ensures Lower(Raise(w)) == w <==> Canonical(w)
    ensures Raise(Lower(Raise(w))) == Raise(w)
  {
  }

  /** What only the wire can say: an unset oneof rises to the default, a marker of either value to the mark. */
  lemma UnsetAndMarkers(flag: bool)
    ensures Raise(WireInit(InitUnset)) == InitTask(Header(TaskHeader([], [])))
    ensures Raise(WirePayload(ChunkUnset)) == TaskPayload(Data([]))
    ensures Raise(WireInit(WireLastTask(flag))) == InitTask(LastTask)
    ensures Raise(WirePayload(WireComplete(flag))) == TaskPayload(Complete)
    ensures Lower(InitTask(LastTask)) == WireInit(WireLastTask(true))
    ensures Lower(TaskPayload(Complete)) == WirePayload(WireComplete(true))
  {
  }

  /** Two wire messages rise to the same message exactly when they are equal up to that. */
  lemma RaisedAlike(v: WireMessage, w: WireMessage)
    ensures Raise(v) == Raise(w) <==> Normal(v) == Normal(w)
    ensures Lower(Raise(w)) == Normal(w)
  {
  }

  /** The wire message with its defaults filled in and its marker true. */
  function Normal(w: WireMessage): WireMessage {
    match w
    case WireInit(InitUnset) => WireInit(WireHeader(TaskHeader([], [])))
    case WireInit(WireLastTask(_)) => WireInit(WireLastTask(true))
    case WirePayload(ChunkUnset) => WirePayload(WireData([]))
    case WirePayload(WireComplete(_)) => WirePayload(WireComplete(true))
    case _ => w
  }

  /** A submission survives the wire, for every bound and either treatment of empty payloads. */
  lemma SubmissionSurvivesWire(ts: seq<TaskRequest>, max: nat, keepEmpty: bool)
    requires max > 0
    ensures Decode(RaiseAll(LowerAll(Grammar(Cuts(ts, max, keepEmpty))))) == Some(Sents(ts))
    ensures forall i :: 0 <= i < |Grammar(Cuts(ts, max, keepEmpty))| ==>
      Canonical(LowerAll(Grammar(Cuts(ts, max, keepEmpty)))[i])
  {
    var ms := Grammar(Cuts(ts, max, keepEmpty));
    BodyRoundTrip(ts, max, keepEmpty);
    assert RaiseAll(LowerAll(ms)) == ms;
  }
}
