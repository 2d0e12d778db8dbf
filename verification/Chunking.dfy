/**
 * Cutting a byte string into chunks of bounded size.
 *
 * Every upload and every submission stream of the SDKs cuts its data with the
 * same rule: take min(max, remaining) bytes while something remains.
 */
module Chunking {
  import opened Basics

  function Chunks<T>(data: seq<T>, max: nat): seq<seq<T>>
    requires max > 0
    decreases |data|
  {
    if data == [] then
      []
    else
      var size := Min(max, |data|);
      [data[..size]] + Chunks(data[size..], max)
  }

  /** A cutting of `data`: full chunks of `max`, then at most one shorter, none of them empty. */
  ghost predicate IsChunking<T>(chunks: seq<seq<T>>, data: seq<T>, max: nat) {
    && Flatten(chunks) == data
    && (forall i :: 0 <= i < |chunks| ==> 0 < |chunks[i]| <= max)
    && (forall i :: 0 <= i < |chunks| - 1 ==> |chunks[i]| == max)
  }

  lemma {:induction false} ChunksIsChunking<T>(data: seq<T>, max: nat)
    requires max > 0
    ensures IsChunking(Chunks(data, max), data, max)
    ensures |Chunks(data, max)| == CeilDiv(|data|, max)
    decreases |data|
  {
    if data == [] {
      CeilDivIs(0, max, 0);
    } else {
      var size := Min(max, |data|);
      var rest := data[size..];
      ChunksIsChunking(rest, max);
      CeilDivStep(|data|, size, max);
      assert data[..size] + rest == data;
      assert Chunks(data, max)[1..] == Chunks(rest, max);
      if rest == [] {
        assert Chunks(rest, max) == [];
      }
    }
  }

  /** At most `size` elements from a position on. */
  function From<T>(data: seq<T>, from: nat, size: nat): seq<T> {
    if from >= |data| then [] else data[from..Min(from + size, |data|)]
  }

  /** The i-th piece of `max`, by position. */
  function Piece<T>(data: seq<T>, max: nat, i: nat): seq<T> { From(data, i * max, max) }

  /** Chunk i holds the elements from i * max on. */
  lemma {:induction false} ChunkIsPiece<T>(data: seq<T>, max: nat, i: nat)
    requires max > 0 && i < |Chunks(data, max)|
    ensures i * max < |data| && Chunks(data, max)[i] == Piece(data, max, i)
    decreases |data|
  {
    if i > 0 {
      ChunkIsPiece(data[Min(max, |data|)..], max, i - 1);
      NextMultiple(i, max);
      FromRest(data, max, (i - 1) * max, max);
    }
  }

  lemma NextMultiple(i: nat, max: nat)
    requires i > 0
    ensures i * max == (i - 1) * max + max
  {
  }

  lemma FromRest<T>(data: seq<T>, skipped: nat, from: nat, size: nat)
    requires skipped <= |data|
    ensures From(data[skipped..], from, size) == From(data, skipped + from, size)
  {
  }

  lemma CeilDivStep(n: nat, size: nat, max: nat)
    requires max > 0 && n > 0 && size == Min(max, n)
    ensures CeilDiv(n, max) == CeilDiv(n - size, max) + 1
  {
    var q := CeilDiv(n - size, max);
    CeilDivBounds(n - size, max);
    assert (q + 1) * max == q * max + max;
    if size < max {
      CeilDivIs(0, max, 0);
    }
    CeilDivIs(n, max, q + 1);
  }

  /** The chunking rule has exactly one outcome. */
  lemma {:induction false} ChunkingIsUnique<T>(chunks: seq<seq<T>>, data: seq<T>, max: nat)
    requires max > 0
    requires IsChunking(chunks, data, max)
    ensures chunks == Chunks(data, max)
    decreases |chunks|
  {
    if chunks != [] {
      var rest := Flatten(chunks[1..]);
      assert data == chunks[0] + rest;
      var size := Min(max, |data|);
      if |chunks| == 1 {
        assert rest == [];
      }
      assert |chunks[0]| == size;
      assert data[size..] == rest;
      assert data[..size] == chunks[0];
      assert forall i :: 0 <= i < |chunks[1..]| ==> chunks[1..][i] == chunks[i + 1];
      ChunkingIsUnique(chunks[1..], rest, max);
    }
  }

  lemma SplitAt<T>(all: seq<T>, done: nat, x: T, rest: seq<T>)
    requires done <= |all| && all[done..] == [x] + rest
    ensures done < |all| && all[done] == x && all[done + 1..] == rest && all[..done + 1] == all[..done] + [x]
  {
    assert all[done..][0] == all[done];
    assert all[done..][1..] == all[done + 1..];
  }

  /** A chunk loop standing at `start` after `done` turns. */
  ghost predicate Reached<T>(data: seq<T>, max: nat, start: nat, done: nat)
    requires max > 0
  {
    start <= |data| && done <= |Chunks(data, max)| && Chunks(data, max)[done..] == Chunks(data[start..], max)
  }

  lemma ChunkAt<T>(data: seq<T>, max: nat, start: nat)
    requires max > 0 && start < |data|
    ensures var next := start + Min(max, |data| - start);
      Chunks(data[start..], max) == [data[start..next]] + Chunks(data[next..], max)
  {
    var rest, size := data[start..], Min(max, |data| - start);
    assert rest[..size] == data[start..start + size];
    assert rest[size..] == data[start + size..];
  }

  /** One turn takes the next chunk. */
  lemma ChunkStep<T>(data: seq<T>, max: nat, start: nat, done: nat)
    requires max > 0 && start < |data| && Reached(data, max, start, done)
    ensures var next := start + Min(max, |data| - start);
      && Reached(data, max, next, done + 1)
      && Chunks(data, max)[done] == data[start..next]
      && Chunks(data, max)[..done + 1] == Chunks(data, max)[..done] + [data[start..next]]
  {
    var next := start + Min(max, |data| - start);
    ChunkAt(data, max, start);
    SplitAt(Chunks(data, max), done, data[start..next], Chunks(data[next..], max));
  }

  /** At the end of the data every chunk has been taken. */
  lemma ChunksTaken<T>(data: seq<T>, max: nat, done: nat)
    requires max > 0 && Reached(data, max, |data|, done)
    ensures done == |Chunks(data, max)| && Chunks(data, max)[..done] == Chunks(data, max)
  {
    assert data[|data|..] == [];
  }
}
