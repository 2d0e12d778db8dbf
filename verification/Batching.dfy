/**
 * Python's `batched` helper, and the batched owner query built on it.
 */
module Batching {
  import opened Basics
  import opened Chunking

  /** One batch for everything when n is not positive: the length never equals n. */
  function Batches<T>(items: seq<T>, n: int): seq<seq<T>> {
    if n > 0 then Chunks(items, n) else if items == [] then [] else [items]
  }

  lemma BatchesJoin<T>(items: seq<T>, n: int)
    ensures Flatten(Batches(items, n)) == items
    ensures forall i :: 0 <= i < |Batches(items, n)| ==> Batches(items, n)[i] != []
  {
    if n > 0 {
      ChunksIsChunking(items, n);
      assert forall i :: 0 <= i < |Chunks(items, n)| ==> 0 < |Chunks(items, n)[i]|;
    } else if items != [] {
      assert Flatten([items]) == items;
    }
  }

  /** Full batches and at most one shorter, as few as possible; a single batch when n is not positive. */
  lemma BatchSizes<T>(items: seq<T>, n: int)
    ensures n > 0 ==> IsChunking(Batches(items, n), items, n) && |Batches(items, n)| == CeilDiv(|items|, n)
    ensures n <= 0 ==> Batches(items, n) == if items == [] then [] else [items]
  {
    if n > 0 {
      ChunksIsChunking(items, n);
    }
  }

  method Batched<T>(items: seq<T>, n: int) returns (batches: seq<seq<T>>)
    ensures batches == Batches(items, n)
  {
    batches := [];
    var batch: seq<T> := [];
    for i := 0 to |items|
      invariant Flatten(batches) + batch == items[..i]
      invariant n > 0 ==> |batch| < n
      invariant forall k :: 0 <= k < |batches| ==> |batches[k]| == n
      invariant n <= 0 ==> batches == []
    {
      batch := batch + [items[i]];
      assert Flatten(batches) + batch == items[..i + 1];
      if |batch| == n {
        FlattenSnoc(batches, batch);
        batches := batches + [batch];
        batch := [];
      }
    }
    assert items[..|items|] == items;
    if |batch| > 0 {
      FlattenSnoc(batches, batch);
      batches := batches + [batch];
    }
    if n > 0 {
      ChunkingIsUnique(batches, items, n);
    } else {
      assert Flatten<T>([]) == [];
    }
  }

  /** A result and the task that should produce it. */
  datatype Owned = Owned(resultId: string, taskId: string)

  /** A server that answers id by id: each known requested id with its owner, in any order, nothing else. */
  ghost predicate Answers(response: seq<Owned>, ids: seq<string>, owner: map<string, string>) {
    forall o :: o in response <==> o.resultId in ids && o.resultId in owner && owner[o.resultId] == o.taskId
  }

  /** The owners of the given ids, as the server knows them. */
  ghost function OwnersOf(ids: seq<string>, owner: map<string, string>): map<string, string> {
    map id | id in ids && id in owner :: owner[id]
  }

  method MergeOne(results: map<string, string>, response: seq<Owned>, ghost ids: seq<string>,
                  ghost owner: map<string, string>)
    returns (merged: map<string, string>)
    requires Answers(response, ids, owner)
    ensures merged == results + OwnersOf(ids, owner)
  {
    merged := results;
    for k := 0 to |response|
      invariant forall id :: id in merged <==> id in results || exists o :: o in response[..k] && o.resultId == id
      invariant forall o :: o in response[..k] ==> o.resultId in merged && merged[o.resultId] == owner[o.resultId]
      invariant forall id :: id in merged && (forall o :: o in response[..k] ==> o.resultId != id) ==>
        id in results && merged[id] == results[id]
    {
      assert response[..k + 1] == response[..k] + [response[k]];
      assert response[k] in response;
      merged := merged[response[k].resultId := response[k].taskId];
    }
    assert response[..|response|] == response;
    forall id | id in ids && id in owner
      ensures id in merged && merged[id] == owner[id]
    {
      assert Owned(id, owner[id]) in response;
    }
  }

  /** The Python client: results keyed by result id, merged over the batches. */
  method MergeOwners(ids: seq<string>, batchSize: int, responses: seq<seq<Owned>>, ghost owner: map<string, string>)
    returns (results: map<string, string>)
    requires |responses| == |Batches(ids, batchSize)|
    requires forall i :: 0 <= i < |responses| ==> Answers(responses[i], Batches(ids, batchSize)[i], owner)
    ensures results == OwnersOf(ids, owner)
  {
    var batches := Batched(ids, batchSize);
    results := map[];
    assert Flatten(batches[..0]) == [];
    for i := 0 to |batches|
      invariant results == OwnersOf(Flatten(batches[..i]), owner)
    {
      assert batches[..i + 1] == batches[..i] + [batches[i]];
      FlattenSnoc(batches[..i], batches[i]);
      results := MergeOne(results, responses[i], batches[i], owner);
      OwnersConcat(Flatten(batches[..i]), batches[i], owner);
    }
    BatchesJoin(ids, batchSize);
    assert batches[..|batches|] == batches;
  }

  lemma OwnersConcat(a: seq<string>, b: seq<string>, owner: map<string, string>)
    ensures OwnersOf(a + b, owner) == OwnersOf(a, owner) + OwnersOf(b, owner)
  {
  }

  /** The C++ client keys the same answer by task id. */
  function ByTask(response: seq<Owned>): map<string, string> {
    if response == [] then map[]
    else ByTask(response[..|response| - 1])[response[|response| - 1].taskId := response[|response| - 1].resultId]
  }

  lemma {:induction false} ByTaskValues(response: seq<Owned>)
    ensures forall t :: t in ByTask(response) <==> exists o :: o in response && o.taskId == t
    ensures forall t :: t in ByTask(response) ==> Owned(ByTask(response)[t], t) in response
  {
    if response != [] {
      var n := |response| - 1;
      ByTaskValues(response[..n]);
      assert response == response[..n] + [response[n]];
    }
  }

  /** The C++ map still names every answered result exactly when no task owns two of them. */
  lemma {:induction false} ByTaskKeepsAllIff(response: seq<Owned>)
    ensures (forall o :: o in response ==> o.taskId in ByTask(response) && ByTask(response)[o.taskId] == o.resultId)
            <==> forall o, p :: o in response && p in response && o.taskId == p.taskId ==> o == p
  {
    ByTaskValues(response);
  }

  /** A task that owns two results: the first is lost. */
  lemma SecondResultReplaces(a: string, b: string, task: string)
    ensures ByTask([Owned(a, task), Owned(b, task)]) == map[task := b]
  {
    var response := [Owned(a, task), Owned(b, task)];
    assert response[..1] == [Owned(a, task)];
    assert ByTask(response[..1]) == map[task := a];
  }
}
