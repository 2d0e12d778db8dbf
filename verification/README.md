# Verification of the ArmoniK client and worker SDKs

This project models, in Dafny, the parts of the ArmoniK SDKs (C#, C++, Python, Rust) that hold
real algorithms, and proves what they promise. Several algorithms exist in two or more languages;
each is modelled in its own form and the forms are related to one definition.

* `TaskStream`, `ClientEncoders`, `FutureWriter`, `WorkerEncoders`, `WireOneof` — the chunked
  submission stream. A reference reader is the specification; it is shown to accept the stream
  grammar and nothing else. The C# iterators run under a cancellation token that may be cancelled at
  any poll; the C++ writer runs over futures that complete in any order.
* `WaitProtocol`, `OtherWaits` — waiting for results over event streams, as a step system over
  arbitrary answers of the environment, per bucket and for all buckets interleaved, with the C#,
  Python and C++ loops proved against one pending set.
* `Paging` — the four "all pages" loops against a list that grows between requests, with 32-bit
  arithmetic.
* `StringView`, `Timespan` — `string_view` and the timespan parser built on it, with `strtol`
  saturation, `int` truncation and 64-bit overflow written out.
* `Configuration`, `JsonFlatten` — option layering and the flattening of JSON trees.
* `ResultTransfer`, `Batching`, `LazyData`, `Chunking`, `Basics` — upload, download and result
  readers, batching and the owner query, lazy data dictionaries, and the shared chunking rule.

An iterator is modelled by the sequence it yields, a server by a history of snapshots or a list of
answers, a thrown exception by a result value, undefined behaviour by an explicit outcome
(`OutOfRange`, `Overflow`).

What the proofs found, where code and documentation or two implementations part ways:

* Once cancelled, the C# client stream still sends one bare header for every remaining task. Such a
  stream never decodes (`CancelledRunIsNeverMisread`).
* `payload_name` of a task request is not carried by any of the streams; two submissions share a
  stream exactly when they differ in nothing else (`EncodingIdentifies`).
* A client stream cut right after its Init message reads as a valid empty submission
  (`CutStreamDetected`).
* `list_tasks` moves before the start of a page, and `list_partitions` returns items twice, when
  page and total come from different moments; the exact conditions are `StraysFrom` and `RepeatsFrom`
  (`TasksAgreeUnlessStray`, `PartitionsAgreeUnlessRepeats`).
* The Python wait returns normally, with ids pending, when the stream merely ends, although its
  documentation promises to wait; the C# form reconnects (`PythonEnding`,
  `PythonLeavesPending`).
* The C++ wait throws on an abort inside its own try block, so the abort is logged and otherwise
  ignored (`AbortsChangeNothing`, `CppMeetsPromiseIff`, `OnlyPythonRaises`); and it never removes
  an empty id (`CppPendingIff`, `EmptyIdStays`).
* The C# result reader accepts a reply without completion marker, that is, truncated data
  (`TruncatedReplies`).
* `substr` reaches past the end of its view when `pos + len` wraps (`SubstrIsClampedSlice`,
  `SubstrWraps`).
* The timespan parser silently saturates in the seconds field only (`ParseIsMeaning`), and reads a
  further sign in any field, so that seconds and nanos may disagree in sign: `0:0:5.-3` and
  `0:-5:0.3` make them (`FractionDisagrees`, `MinutesDisagree`).  `SignsAgreeIff` says exactly when they
  agree.  A fraction of fewer than nine characters with anything behind its digits is not scaled:
  `0:0:1.5` with a blank at its end is five nanoseconds over one second (`FractionIsRead`, `BlankUnscales`).
* The C++ owner query maps task to result where its header documents result to task, and so loses
  results of a task that owns several (`ByTaskKeepsAllIff`, `SecondResultReplaces`).

## Model

| member | source | states |
|---|---|---|
| Chunking.ChunksIsChunking | packages/csharp/ArmoniK.Api.Client/ResultsClientExt.cs:67-82 | taking min(max, remaining) until nothing remains gives ceil(len/max) non-empty pieces that join to the data, all of exactly max except possibly the last |
| Chunking.ChunkingIsUnique | packages/cpp/ArmoniK.Api.Client/source/results/ResultsClient.cpp:56-63 | that description has one solution only, so every loop meeting it cuts alike |
| TaskStream.DecodeIffGrammar | Protos/V1/submitter_common.proto:43-53 | the reference reader accepts a message list with tasks ts exactly when it is header, data chunks and completion per task and one LastTask, for some cutting of ts |
| TaskStream.TruncationDetected | packages/csharp/ArmoniK.Api.Client/Submitter/SubmitterClientExt.cs:188-232 | a complete body cut at any other place than its start no longer decodes |
| TaskStream.CutMeaning | packages/csharp/ArmoniK.Api.Worker/Worker/TaskRequestExtensions.cs:108-126 | number and size of a task's chunks, and that they mean output keys, data dependencies and payload of the request |
| TaskStream.FullTaskLaidOut | packages/cpp/ArmoniK.Api.Client/source/submitter/SubmitterClient.cpp:106-172 | the messages of one task by position: output keys and data dependencies in the header, piece i of the payload in data message i, completion, LastTask |
| TaskStream.BodyRoundTrip | packages/cpp/ArmoniK.Api.Worker/source/Worker/TaskHandler.cpp:66-170 | for every task list, bound and treatment of empty payloads, reading back gives output keys, data dependencies and payload of each task in order |
| ClientEncoders.RoundTrip | packages/csharp/ArmoniK.Api.Client/Submitter/SubmitterClientExt.cs:101-233 | session, options, and output keys, data dependencies and payload of every task are recovered from a client stream |
| ClientEncoders.StreamIsItsTasks | packages/csharp/ArmoniK.Api.Client/Submitter/SubmitterClientExt.cs:113-144 | a complete stream is the tasks laid out one after the other, the last one with LastTask, and nothing for no tasks |
| ClientEncoders.EncodingIdentifies | packages/csharp/ArmoniK.Api.Client/Submitter/SubmitterClientExt.cs:107-169 | two submissions have the same stream if and only if session and options agree and the tasks agree in output keys, data dependencies and payload |
| ClientEncoders.BoundIsIrrelevant | packages/cpp/ArmoniK.Api.Client/source/submitter/SubmitterClient.cpp:135-151 | the decoded meaning does not depend on the chunk bound, nor can streams under two bounds be confused |
| ClientEncoders.CutStreamDetected | packages/csharp/ArmoniK.Api.Client/Submitter/SubmitterClientExt.cs:107-121 | a strict prefix of a client stream decodes if and only if it is the Init message alone |
| ClientEncoders.CancellationToken.IsCancellationRequested | packages/csharp/ArmoniK.Api.Client/Submitter/SubmitterClientExt.cs:172-175 | a token that is cancelled after some number of polls, or never, and stays cancelled |
| ClientEncoders.TaskToRequestStream | packages/csharp/ArmoniK.Api.Client/Submitter/SubmitterClientExt.cs:147-233 | the iterator of one task sends the exact prefix of its messages that the token allows; without cancellation, the header, every piece of the payload, completion and LastTask, by position |
| ClientEncoders.ToRequestStream | packages/csharp/ArmoniK.Api.Client/Submitter/SubmitterClientExt.cs:101-144 | the look-ahead iterator sends Init and then the allowed messages of each task, only the last of which may carry LastTask |
| ClientEncoders.PollsAreMessages | packages/csharp/ArmoniK.Api.Client/Submitter/SubmitterClientExt.cs:171-221 | the token is polled once for every message of a task, the empty chunk of an empty payload excepted |
| ClientEncoders.CancellationIsPrompt | packages/csharp/ArmoniK.Api.Client/Submitter/SubmitterClientExt.cs:171-221 | a token cancelled after k polls lets at least k messages out and at most k and one per task |
| ClientEncoders.DisturbedShape | packages/csharp/ArmoniK.Api.Client/Submitter/SubmitterClientExt.cs:125-144 | a cancelled run is: complete tasks, one task cut inside its chunks, bare headers |
| ClientEncoders.CancellationSafety | packages/csharp/ArmoniK.Api.Client/Submitter/SubmitterClientExt.cs:171-232 | for a non-empty list: the token outlives the polls, LastTask is sent, the stream is complete, the stream decodes, are equivalent |
| ClientEncoders.CancelledRunIsNeverMisread | packages/csharp/ArmoniK.Api.Client/Submitter/SubmitterClientExt.cs:85-95 | a whole run decodes to every task or to nothing |
| ClientEncoders.LastTaskIsLast | packages/csharp/ArmoniK.Api.Client/Submitter/SubmitterClientExt.cs:223-232 | a LastTask in any run is its final message and everything before it was sent in full |
| ClientEncoders.TaskChunkStream | packages/cpp/ArmoniK.Api.Client/source/submitter/SubmitterClient.cpp:106-172 | the C++ block of one task, by position: header with output keys and data dependencies, every piece of the payload, completion, LastTask |
| ClientEncoders.ToRequestBlocks | packages/cpp/ArmoniK.Api.Client/source/submitter/SubmitterClient.cpp:72-96 | the C++ blocks, one per future, join to the complete stream |
| FutureWriter.OrderIsIrrelevant | packages/cpp/ArmoniK.Api.Client/source/submitter/SubmitterClient.cpp:208-215 | under every completion order the wire holds a prefix of the blocks in index order; a run that can go no further has written all of it, within a fixed number of steps; stated for any message type |
| FutureWriter.LookAheadEqualsConcurrent | packages/cpp/ArmoniK.Api.Client/source/submitter/SubmitterClient.cpp:182-215 | a finished concurrent C++ run has written what an uncancelled C# iterator yields |
| WorkerEncoders.CSharpTask | packages/csharp/ArmoniK.Api.Worker/Worker/TaskRequestExtensions.cs:84-148 | the C# worker sends one task, every message with the token, and no chunk for an empty payload |
| WorkerEncoders.CppTask | packages/cpp/ArmoniK.Api.Worker/source/Worker/TaskHandler.cpp:66-136 | the C++ worker sends one task, every message with the token, and an empty payload as one empty chunk |
| WorkerEncoders.WorkerLayout | packages/cpp/ArmoniK.Api.Worker/source/Worker/TaskHandler.cpp:66-136 | the messages of one task of either worker by position, with the fields of its request, each under the token |
| WorkerEncoders.CSharpStream | packages/csharp/ArmoniK.Api.Worker/Worker/TaskRequestExtensions.cs:29-82 | the C# worker stream under its token |
| WorkerEncoders.CppBlocks | packages/cpp/ArmoniK.Api.Worker/source/Worker/TaskHandler.cpp:146-170 | the C++ worker blocks join to the worker stream |
| WorkerEncoders.WorkerRoundTrip | packages/csharp/ArmoniK.Api.Worker/Worker/TaskRequestExtensions.cs:34-52 | a reader that insists on one token throughout recovers token, options, and output keys, data dependencies and payload of every task from either worker |
| WorkerEncoders.WorkersAgree | packages/cpp/ArmoniK.Api.Worker/source/Worker/TaskHandler.cpp:86-94 | the two workers differ by empty chunks only, decode alike, and are equal if and only if no payload is empty |
| WorkerEncoders.WorkerLookAheadAgreesConcurrent | packages/cpp/ArmoniK.Api.Worker/source/Worker/TaskHandler.cpp:188-197 | a finished concurrent C++ worker run, in any completion order, decodes to what the C# worker stream decodes to, and equals it if and only if no payload is empty |
| WireOneof.WireRoundTrip | packages/rust/armonik/src/objects/init_task_request.rs:18-39 | domain to wire and back is the identity; wire to domain and back is, exactly on messages with the oneof set and markers true |
| WireOneof.UnsetAndMarkers | packages/rust/armonik/src/objects/init_task_request.rs:12-37 | an unset oneof rises to an empty header or an empty chunk, a marker of either value to the mark, and marks go down as true |
| WireOneof.RaisedAlike | packages/rust/armonik/src/objects/data_chunk.rs:31-37 | two wire messages rise to the same message if and only if they agree up to that |
| WireOneof.SubmissionSurvivesWire | packages/rust/armonik/src/objects/data_chunk.rs:16-37 | a submission lowered to the oneofs and raised again decodes to its tasks |
| WaitProtocol.BucketWaiter.OnEvent | packages/csharp/ArmoniK.Api.Client/EventsClientExt.cs:145-186 | one event completes, aborts or leaves the pending set |
| WaitProtocol.BucketWaiter.ReadEvents | packages/csharp/ArmoniK.Api.Client/EventsClientExt.cs:143-187 | the read loop follows the step system up to its break or exception |
| WaitProtocol.BucketWaiter.Catch | packages/csharp/ArmoniK.Api.Client/EventsClientExt.cs:189-200 | what the two catch clauses swallow and rethrow |
| WaitProtocol.BucketWaiter.Run | packages/csharp/ArmoniK.Api.Client/EventsClientExt.cs:116-202 | the nested loops of a bucket follow the step system for every feasible list of answers |
| WaitProtocol.EveryRunKeepsInv | packages/csharp/ArmoniK.Api.Client/EventsClientExt.cs:116-202 | completed and pending ids partition the bucket as the received events dictate, completed has no duplicates, subscriptions shrink, the counter counts |
| WaitProtocol.AbortIffReported | packages/csharp/ArmoniK.Api.Client/EventsClientExt.cs:158-164 | for every run and on the answers alone: a bucket fails with an abort if and only if its last answer reports aborted an id of the bucket that no earlier answer completed; the exception carries that id and the remaining ids |
| WaitProtocol.ReturnIff | packages/csharp/ArmoniK.Api.Client/EventsClientExt.cs:116-192 | it returns if and only if its last answer is a loop check that is cancelled or finds everything completed, or its own cancellation; a foreign cancellation is rethrown |
| WaitProtocol.GoesOnIff | packages/csharp/ArmoniK.Api.Client/EventsClientExt.cs:116-200 | the exact answers after which it connects, reads, or is back at its loop condition |
| WaitProtocol.CompletedInOrder | packages/csharp/ArmoniK.Api.Client/EventsClientExt.cs:147-152 | the completed ids are listed in the order of their first reports |
| WaitProtocol.RetryBound | packages/csharp/ArmoniK.Api.Client/EventsClientExt.cs:193-200 | the sixth failure since the last headers, and no earlier one, is rethrown; attempts are at most 6 times (openings + 1) |
| WaitProtocol.SubscriptionIsPending | packages/csharp/ArmoniK.Api.Client/EventsClientExt.cs:123-139 | each connection asks for exactly the ids not yet reported completed |
| WaitProtocol.OrderIsIrrelevant | packages/csharp/ArmoniK.Api.Client/EventsClientExt.cs:143-186 | runs with the same set of events, in any order, number and split, have the same pending and completed ids |
| WaitProtocol.EveryCallKeepsInv | packages/csharp/ArmoniK.Api.Client/EventsClientExt.cs:104-114 | the bucket invariants survive every interleaving of buckets and cancellation |
| WaitProtocol.NormalReturnMeansCompleted | packages/csharp/ArmoniK.Api.Client/EventsClientExt.cs:97-204 | an uncancelled call whose buckets all returned has received a Completed event for every requested id |
| WaitProtocol.BucketsBySize | packages/csharp/ArmoniK.Api.Client/EventsClientExt.cs:104-114 | bucket i holds the ids from i * size on, ceil(n/size) buckets in all |
| WaitProtocol.BucketRunsAlone | packages/csharp/ArmoniK.Api.Client/EventsClientExt.cs:104-114 | in every interleaving a bucket stands where a wait of its own with its own answers stands |
| WaitProtocol.AbortNamesPendingId | packages/csharp/ArmoniK.Api.Client/EventsClientExt.cs:158-164 | in a whole call a bucket raises an abort if and only if the last event it received reports aborted an id still pending in it; the exception has that id and the exact completed and remaining ids |
| OtherWaits.Handler | packages/python/src/armonik/client/events.py:151-160 | the Python handler closure |
| OtherWaits.WaitAllPython | packages/python/src/armonik/client/events.py:138-174 | the Python loop follows its run function for every list of answers |
| OtherWaits.PythonCall | packages/python/src/armonik/client/events.py:162-174 | the Python pending set is the common one; a normal return leaves ids pending if and only if the stream ended by itself; an abort names a pending id |
| OtherWaits.PythonEnding | packages/python/src/armonik/client/events.py:151-174 | how every Python wait ends, on its answers alone: it finds everything, or stops at a stream end, or raises, or goes on waiting, each if and only if that is what the answers decide first |
| OtherWaits.PythonOnOneStream | packages/python/src/armonik/client/events.py:151-174 | on one stream of events it raises if and only if an id is reported aborted before it is reported completed, and else ends with the common pending set |
| OtherWaits.PythonLeavesPending | packages/python/src/armonik/client/events.py:162-174 | an input on which it returns with an id pending |
| OtherWaits.WaitPython | packages/python/src/armonik/client/events.py:112-135 | the sequential call over all batches, for any batch size: it returns when every batch finishes, and raises at the first batch that raises |
| OtherWaits.PythonNormalReturn | packages/python/src/armonik/client/events.py:112-135 | when every batch finishes, each requested id is in a batch; a batch misses exactly its ids not completed in the answers it read; it misses none if and only if its answers complete them all before a stream end, and some if and only if the stream ends first |
| OtherWaits.Erase | packages/cpp/ArmoniK.Api.Client/source/events/EventsClient.cpp:76 | remove and erase drop every occurrence and keep the order |
| OtherWaits.WithoutIsFilter | packages/cpp/ArmoniK.Api.Client/source/events/EventsClient.cpp:76 | what stays keeps its order and its repetitions |
| OtherWaits.Switch | packages/cpp/ArmoniK.Api.Client/source/events/EventsClient.cpp:45-74 | the switch of the try block: the id an event reports completed, or the exception it throws, with its id, on an abort |
| OtherWaits.WaitCpp | packages/cpp/ArmoniK.Api.Client/source/events/EventsClient.cpp:44-84 | the C++ loop, with its handler, follows its run function on every event list and logs every abort exception |
| OtherWaits.AbortsChangeNothing | packages/cpp/ArmoniK.Api.Client/source/events/EventsClient.cpp:81-83 | aborts leave a log line and nothing else: the run ends at the same event with the same ids as the run on the list without its aborts |
| OtherWaits.CppMeetsPromiseIff | packages/cpp/ArmoniK.Api.Client/source/events/EventsClient.cpp:52-83 | for all ids and events, on the events alone: the C++ wait ends as the Python wait does if and only if no id is reported aborted before it is reported completed and no empty id is requested and completed |
| OtherWaits.OnlyPythonRaises | packages/cpp/ArmoniK.Api.Client/source/events/EventsClient.cpp:45-83 | an event on which Python raises and C++ logs and waits on |
| OtherWaits.EmptyIdStays | packages/cpp/ArmoniK.Api.Client/source/events/EventsClient.cpp:75-76 | an event that ends the Python wait and leaves the C++ one pending |
| OtherWaits.CppCall | packages/cpp/ArmoniK.Api.Client/source/events/EventsClient.cpp:44-80 | the C++ list ends as the ids no event of the stream completes, in order; the stream is left right behind the first event that leaves nothing pending, and at no other place |
| OtherWaits.CppPendingIff | packages/cpp/ArmoniK.Api.Client/source/events/EventsClient.cpp:75-76 | it is the common pending set if and only if no empty id was both requested and completed |
| OtherWaits.SameEventsSamePending | packages/python/src/armonik/client/events.py:149-160 | C#, Python and C++ runs that received the same set of events have the same ids pending |
| Paging.HoldsStep | packages/cpp/ArmoniK.Api.Client/source/results/ResultsClient.cpp:125-132 | one turn on a growing list: the offset lies within the page, the prefix grows, nothing overflows int32 |
| Paging.CursorBounds | packages/cpp/ArmoniK.Api.Client/source/results/ResultsClient.cpp:127-132 | page * page_size <= size <= (page + 1) * page_size at every step |
| Paging.ListResults | packages/cpp/ArmoniK.Api.Client/source/results/ResultsClient.cpp:116-138 | the Results loop, the same as the Sessions loop, returns a prefix described by list lengths only, in int32 arithmetic that cannot overflow |
| Paging.ListingIsPrefix | packages/cpp/ArmoniK.Api.Client/source/sessions/SessionsClient.cpp:84-108 | items and total from any moments: no gaps, no duplicates, at least the reported total, at the first response that allows it |
| Paging.ListedIff | packages/cpp/ArmoniK.Api.Client/source/results/ResultsClient.cpp:118-135 | a listing is returned if and only if some response has the prefix known then at least as long as its total; it is the first such response and that prefix, with its total |
| Paging.FixedListing | packages/cpp/ArmoniK.Api.Client/source/results/ResultsClient.cpp:118-135 | a fixed list of N comes back whole after exactly max(1, ceil(N/page_size)) requests |
| Paging.ListTasks | packages/cpp/ArmoniK.Api.Client/source/tasks/TasksClient.cpp:54-76 | the Tasks loop, advancing on the total, including the runs where its iterator leaves the page |
| Paging.TasksAgreeUnlessStray | packages/cpp/ArmoniK.Api.Client/source/tasks/TasksClient.cpp:65-73 | it agrees with the Results loop, and stays in range, if and only if no running response has a short page and a total of at least a page |
| Paging.ListPartitions | packages/cpp/ArmoniK.Api.Client/source/partitions/PartitionsClient.cpp:34-56 | the Partitions loop, appending whole pages, follows its result function on every growing history |
| Paging.PartitionsAgreeUnlessRepeats | packages/cpp/ArmoniK.Api.Client/source/partitions/PartitionsClient.cpp:44-51 | it agrees with the Results loop on runs that never ask again for a partly filled page; for lists without repetition, a listing repeats an item if and only if its run did ask again |
| Paging.OneMomentIsSafe | packages/cpp/ArmoniK.Api.Client/source/partitions/PartitionsClient.cpp:44-51 | with page and total from one moment of an append-only list all loops agree |
| Paging.AllLoopsOnFixedList | packages/cpp/ArmoniK.Api.Client/source/tasks/TasksClient.cpp:54-76 | on a fixed list all loops return everything with the same exact number of requests |
| Paging.MixedMomentsBreakVariants | packages/cpp/ArmoniK.Api.Client/source/partitions/PartitionsClient.cpp:44-51 | a concrete growing list on which Results is right, Tasks leaves the page and Partitions returns an item twice |
| StringView.SubstrIsClampedSlice | packages/cpp/ArmoniK.Api.Common/header/utils/string_view.h:75-79 | the sub-view stays inside if and only if pos + len does not wrap, and is then the clamped slice; else it keeps the length asked for |
| StringView.SubstrWraps | packages/cpp/ArmoniK.Api.Common/header/utils/string_view.h:75-79 | a position and length whose sum wraps and what the sub-view then shows |
| StringView.FindChar | packages/cpp/ArmoniK.Api.Common/header/utils/string_view.h:82-89 | least index at or after pos, npos exactly when there is none |
| StringView.Find | packages/cpp/ArmoniK.Api.Common/header/utils/string_view.h:91-114 | least match at or after pos, npos exactly when there is none, empty needle included |
| StringView.Equals | packages/cpp/ArmoniK.Api.Common/header/utils/string_view.h:134-144 | equality of contents |
| StringView.SplitByFind | packages/cpp/ArmoniK.Api.Common/header/utils/string_view.h:120-129 | the find loop computes the split |
| StringView.SplitThenJoin | packages/cpp/ArmoniK.Api.Common/header/utils/string_view.h:118-129 | joining the pieces gives the view back and no piece contains the delimiter |
| StringView.JoinThenSplit | packages/cpp/ArmoniK.Api.Common/header/utils/string_view.h:118-129 | that decomposition is the only one |
| Timespan.DurationFromTimespan | packages/cpp/ArmoniK.Api.Common/source/utils/Utils.cpp:31-68 | the statements of the parser compute the parse function |
| Timespan.RefusedIff | packages/cpp/ArmoniK.Api.Common/source/utils/Utils.cpp:34-55 | invalid_argument is thrown exactly on a wrong number of colons, or of dots in the first or third section |
| Timespan.ParseLongReads | packages/cpp/ArmoniK.Api.Common/source/utils/Utils.cpp:15 | how the fields are read: blanks, sign, digits, anything; saturating |
| Timespan.NegativeIff | packages/cpp/ArmoniK.Api.Common/source/utils/Utils.cpp:43 | the sign is negative if and only if a dash stands before the first separator of either kind |
| Timespan.FractionIsRead | packages/cpp/ArmoniK.Api.Common/source/utils/Utils.cpp:57-63 | every fraction, digits or not: nine characters or more are read as their first nine, a shorter number is scaled to nine characters, a number with something behind it not at all |
| Timespan.BlankUnscales | packages/cpp/ArmoniK.Api.Common/source/utils/Utils.cpp:61-63 | concrete accepted inputs with a blank behind the fraction and what they parse to |
| Timespan.ParseWellFormed | packages/cpp/ArmoniK.Api.Common/source/utils/Utils.cpp:42-67 | what is computed for every well-formed timespan of any size, overflow and saturation included; a fraction of n <= 9 digits counts its value times 10^(9-n) nanos, a longer one its first nine digits |
| Timespan.ParseIsMeaning | packages/cpp/ArmoniK.Api.Common/source/utils/Utils.cpp:18-68 | for well-formed input of any size: it is sign * (86400d + 3600h + 60m + s) and sign * the billionths written behind the point if and only if that fits 64 bits and the seconds field alone does; seconds and nanos agree in sign |
| Timespan.NanosBelowOneSecond | packages/cpp/ArmoniK.Api.Common/source/utils/Utils.cpp:56-65 | every accepted input, well-formed or not, yields less than one second of nanos |
| Timespan.AcceptedMeaning | packages/cpp/ArmoniK.Api.Common/source/utils/Utils.cpp:42-67 | every accepted input, well-formed or not, yields its sign times the sum of its fields as strtol reads them and its sign times its fraction, read as in `FractionIsRead` |
| Timespan.SignsAgreeIff | packages/cpp/ArmoniK.Api.Common/header/utils/Utils.h:17-18 | for every accepted input seconds and nanos agree in sign, as documented, if and only if the sum of the fields and the fraction, as written, do or one is zero |
| Timespan.OneLeadingDashIsSafe | packages/cpp/ArmoniK.Api.Common/source/utils/Utils.cpp:42-67 | an accepted input with no dash except possibly its first character has agreeing signs |
| Timespan.SecondSignInFraction | packages/cpp/ArmoniK.Api.Common/source/utils/Utils.cpp:58-65 | with digits in the other fields, signs agree if and only if those fields sum to zero, there is no fraction, or it is not read negative |
| Timespan.SecondSignInMinutes | packages/cpp/ArmoniK.Api.Common/source/utils/Utils.cpp:46-67 | with a dash in the minutes only, signs agree if and only if the fraction is zero or the minutes do not outweigh the other fields |
| Timespan.FractionDisagrees | packages/cpp/ArmoniK.Api.Common/source/utils/Utils.cpp:58-65 | concrete accepted inputs with a second sign in the fraction and what they parse to |
| Timespan.MinutesDisagree | packages/cpp/ArmoniK.Api.Common/source/utils/Utils.cpp:46-67 | concrete accepted inputs with a second sign in the minutes and what they parse to |
| Timespan.RenderThenParse | packages/cpp/ArmoniK.Api.Common/source/utils/Utils.cpp:26-68 | every valid 64-bit duration survives rendering and parsing |
| Configuration.ConfigurationStore.SetValue | packages/cpp/ArmoniK.Api.Common/source/utils/Configuration.cpp:45-50 | a set is one step of the layer state |
| Configuration.ConfigurationStore.SetFrom | packages/cpp/ArmoniK.Api.Common/source/utils/Configuration.cpp:40-44 | a bulk set, entry by entry in any order and possibly from itself, is one step |
| Configuration.ConfigurationStore.AddEnvConfiguration | packages/cpp/ArmoniK.Api.Common/source/utils/Configuration.cpp:32-36 | adding the environment is one step |
| Configuration.ConfigurationStore.GetValue | packages/cpp/ArmoniK.Api.Common/source/utils/Configuration.cpp:52-61 | after any sequence of calls: the latest set of the key, or an environment layer that defines it, or "" |
| Configuration.LayersRefineHistory | packages/cpp/ArmoniK.Api.Common/source/utils/Configuration.cpp:32-61 | after any history get is a backwards walk to the latest set of the key, or to an environment layer that defines it, or "" |
| Configuration.LookupIsLatest | packages/cpp/ArmoniK.Api.Common/source/utils/Configuration.cpp:52-61 | that walk told by position: the latest set of the key, or environment layer that has it, decides |
| Configuration.LookupOfUndefined | packages/cpp/ArmoniK.Api.Common/source/utils/Configuration.cpp:52-61 | "" when no operation gives the key a value |
| JsonFlatten.Populate | packages/cpp/ArmoniK.Api.Common/source/utils/JsonConfiguration.cpp:14-34 | for every tree and prefix, the entries set in order, up to the first leaf that is not a string |
| JsonFlatten.FlattenEveryTree | packages/cpp/ArmoniK.Api.Common/source/utils/JsonConfiguration.cpp:14-34 | for every tree, bad keys included: it ends well if and only if all leaves are strings, and sets exactly the string leaves before the first other one, in document order, each under its path |
| JsonFlatten.ChildrenInOrder | packages/cpp/ArmoniK.Api.Common/source/utils/JsonConfiguration.cpp:18-28 | items are walked under their decimal index from 0 on, members under their key, in order |
| JsonFlatten.KeyOfInjective | packages/cpp/ArmoniK.Api.Common/source/utils/JsonConfiguration.cpp:18-27 | joined keys of good parts are unique |
| JsonFlatten.FlatteningIsLossless | packages/cpp/ArmoniK.Api.Common/source/utils/JsonConfiguration.cpp:14-34 | from an empty configuration every leaf stands at its joined path, distinct leaves have distinct keys, nothing else is there |
| JsonFlatten.BadKeysCollide | packages/cpp/ArmoniK.Api.Common/source/utils/JsonConfiguration.cpp:25-27 | for each condition on keys a tree that breaks only that one and loses a leaf when flattened |
| ResultTransfer.UploadShrinking | packages/cpp/ArmoniK.Api.Client/source/results/ResultsClient.cpp:50-63 | what the shrinking view writes on a stream that may break, and exactly when that is reported |
| ResultTransfer.UploadIndexed | packages/python/src/armonik/client/results.py:205-220 | the indexed upload sends the same messages |
| ResultTransfer.Download | packages/csharp/ArmoniK.Api.Client/ResultsClientExt.cs:112-119 | the download is the join of its pieces |
| ResultTransfer.UploadThenDownload | packages/python/src/armonik/client/results.py:192-236 | identifier first, then piece i of the data in message i, ceil(len/max) of them, non-empty; any cutting of the stored bytes downloads to the data |
| ResultTransfer.ReadCpp | packages/cpp/ArmoniK.Api.Client/source/submitter/SubmitterClient.cpp:300-331 | success if and only if every reply is a set chunk and the last a completion marker, then all data; else the exception of the first other reply, by its kind, or incomplete |
| ResultTransfer.ReadCSharp | packages/csharp/ArmoniK.Api.Client/Submitter/SubmitterClientExt.cs:254-279 | success if and only if every reply is a chunk, then all data |
| ResultTransfer.AllDataIs | packages/csharp/ArmoniK.Api.Client/Submitter/SubmitterClientExt.cs:259-277 | all data means the data chunks joined in order, everything else skipped |
| ResultTransfer.TruncatedReplies | packages/cpp/ArmoniK.Api.Client/source/submitter/SubmitterClient.cpp:327-329 | both read a well-formed reply; of its strict prefixes C++ refuses each and C# accepts each |
| Batching.BatchSizes | packages/python/src/armonik/common/helpers.py:113-136 | full batches and at most one shorter, non-empty one, ceil(len/n) in all; one single batch when n is not positive |
| Batching.Batched | packages/python/src/armonik/common/helpers.py:127-136 | the loop yields those batches for every n |
| Batching.MergeOwners | packages/python/src/armonik/client/results.py:116-135 | for every batch size, positive or not, the merged map is the map of a single query, for a server that answers id by id in any order |
| Batching.ByTaskKeepsAllIff | packages/cpp/ArmoniK.Api.Client/source/results/ResultsClient.cpp:200-204 | the C++ map, keyed by task, names every answered result if and only if no task owns two |
| Batching.SecondResultReplaces | packages/cpp/ArmoniK.Api.Client/source/results/ResultsClient.cpp:200-204 | two results of one task, the first of which is lost |
| LazyData.ReadFromFolderDict.Item | packages/csharp/ArmoniK.Api.Worker/Worker/TaskHandler.cs:80-96 | a lookup answers like a plain read and reads each file at most once |
| LazyData.ReadFromFolderDict.TryGetValue | packages/csharp/ArmoniK.Api.Worker/Worker/TaskHandler.cs:65-77 | only listed dependencies are found |
| LazyData.ReadFromFolderDict.Values | packages/csharp/ArmoniK.Api.Worker/Worker/TaskHandler.cs:103-104 | walking the values agrees with plain reads up to the first missing file |
| LazyData.LazyLoadDict.GetItem | packages/python/src/armonik/worker/taskhandler.py:43-49 | unknown keys raise, known ones answer like a plain read, each file is read at most once |

## Left out

- gRPC channels, TLS, certificates, proxies, retries of the transport, and the final WritesDone and Finish of a stream.
- The server: scheduling, session states, event replay. Where a property needs one it is an explicit history or list of answers.
- Exceptions thrown by the task enumerable of the C# client stream itself; the run then is a prefix of the modelled one.
- Chunk and batch bounds of the submission and upload loops that are not positive: those loops do not progress, and the bound is required to be positive.
- The single-page branch (`page >= 0`) of the listing methods: one request, forwarded.
- `ToChunks` and `ParallelForEach` of ArmoniK.Utils are not part of this model: buckets are taken to be consecutive chunks, their tasks to be interleaved steps, and the call to return when every bucket has.
- Python's event filter algebra: a subscription is the set of ids it asks for.
- How `strtol` treats locales other than "C"; `long` is taken to be 64 bits wide.
- JSON parsing itself, and file reading: a tree and a folder are given as values. Loading from a path logs and keeps what was set before a failure; that handler is not modelled.
- Environment changes between two calls of `get`: the environment of a history is fixed.
- Per-service client methods that build one request and forward it, mock services, loggers, version and build scripts: field copying only.
- Rust `ClientConfig`, worker process lifetime, timers: they rest on libraries that are not part of this model.
