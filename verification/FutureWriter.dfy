/**
 * The C++ write loop: one future per block, computed by threads that finish in
 * any order, and one writer that waits for them in index order.
 */
module FutureWriter {
  import opened Basics
  import opened TaskStream
  import opened ClientEncoders

  /** `slots[i]` is filled when future i completes; `taken` blocks were handed to the writer. */
  datatype Writer<M> = Writer(slots: seq<Option<seq<M>>>, taken: nat, current: seq<M>, written: seq<M>)

  datatype Step = Finish(i: nat) | Take | Write

  function Start<M>(n: nat): Writer<M> {
    Writer(seq(n, _ => None), 0, [], [])
  }

  /** `Take` blocks until the next future is ready and the previous block is written out. */
  predicate Enabled<M>(w: Writer<M>, step: Step) {
    match step
    case Finish(i) => i < |w.slots| && w.slots[i].None?
    case Take => w.taken < |w.slots| && w.slots[w.taken].Some? && |w.current| == 0
    case Write => |w.current| > 0
  }

  function Next<M>(blocks: seq<seq<M>>, w: Writer<M>, step: Step): Writer<M>
    requires |w.slots| == |blocks| && Enabled(w, step)
  {
    match step
    case Finish(i) => w.(slots := w.slots[i := Some(blocks[i])])
    case Take => w.(taken := w.taken + 1, current := w.slots[w.taken].value)
    case Write => w.(current := w.current[1..], written := w.written + [w.current[0]])
  }

  /** w is reachable by executing `steps`. */
  ghost predicate Run<M(!new)>(blocks: seq<seq<M>>, steps: seq<Step>, w: Writer<M>)
    decreases |steps|
  {
    if steps == [] then
      w == Start(|blocks|)
    else
      var last := steps[|steps| - 1];
      exists v: Writer<M> ::
        && Run(blocks, steps[..|steps| - 1], v)
        && |v.slots| == |blocks| && Enabled(v, last) && w == Next(blocks, v, last)
  }

  function Unfilled<M>(slots: seq<Option<seq<M>>>): nat {
    if slots == [] then 0 else (if slots[0].None? then 1 else 0) + Unfilled(slots[1..])
  }

  ghost predicate Inv<M>(blocks: seq<seq<M>>, w: Writer<M>, steps: nat) {
    && |w.slots| == |blocks|
    && w.taken <= |blocks|
    && (forall i :: 0 <= i < |blocks| ==> w.slots[i] == None || w.slots[i] == Some(blocks[i]))
    && (forall i :: 0 <= i < w.taken ==> w.slots[i].Some?)
    && w.written + w.current + Flatten(blocks[w.taken..]) == Flatten(blocks)
    && steps + Unfilled(w.slots) == |blocks| + w.taken + |w.written|
  }

  lemma {:induction false} UnfilledAtStart<M>(n: nat)
    ensures Unfilled<M>(seq(n, _ => None)) == n
  {
    if n > 0 {
      assert seq<Option<seq<M>>>(n, _ => None)[1..] == seq<Option<seq<M>>>(n - 1, _ => None);
      UnfilledAtStart<M>(n - 1);
    }
  }

  lemma {:induction false} UnfilledDrops<M>(slots: seq<Option<seq<M>>>, i: nat, b: seq<M>)
    requires i < |slots| && slots[i].None?
    ensures Unfilled(slots[i := Some(b)]) + 1 == Unfilled(slots)
  {
    if i == 0 {
      assert slots[0 := Some(b)][1..] == slots[1..];
    } else {
      assert slots[i := Some(b)][1..] == slots[1..][i - 1 := Some(b)];
      UnfilledDrops(slots[1..], i - 1, b);
    }
  }

  lemma StepKeepsInv<M>(blocks: seq<seq<M>>, w: Writer<M>, step: Step, n: nat)
    requires Inv(blocks, w, n) && Enabled(w, step)
    ensures Inv(blocks, Next(blocks, w, step), n + 1)
  {
    match step
    case Finish(i) =>
      UnfilledDrops(w.slots, i, blocks[i]);
    case Take =>
      assert blocks[w.taken..] == [blocks[w.taken]] + blocks[w.taken + 1..];
      assert w.written + [] + Flatten(blocks[w.taken..])
          == w.written + blocks[w.taken] + Flatten(blocks[w.taken + 1..]);
    case Write =>
      var w' := Next(blocks, w, step);
      assert w'.written + w'.current == w.written + w.current;
  }

  lemma {:induction false} RunKeepsInv<M(!new)>(blocks: seq<seq<M>>, steps: seq<Step>, w: Writer<M>)
    requires Run(blocks, steps, w)
    ensures Inv(blocks, w, |steps|)
    decreases |steps|
  {
    if steps == [] {
      UnfilledAtStart<M>(|blocks|);
      assert blocks[0..] == blocks;
    } else {
      var last := steps[|steps| - 1];
      var v: Writer<M> :|
        && Run(blocks, steps[..|steps| - 1], v)
        && |v.slots| == |blocks| && Enabled(v, last) && w == Next(blocks, v, last);
      RunKeepsInv(blocks, steps[..|steps| - 1], v);
      StepKeepsInv(blocks, v, last, |steps| - 1);
    }
  }

  lemma {:induction false} AllFilled<M>(slots: seq<Option<seq<M>>>)
    requires forall i :: 0 <= i < |slots| ==> slots[i].Some?
    ensures Unfilled(slots) == 0
  {
    if slots != [] {
      AllFilled(slots[1..]);
    }
  }

  /**
   * Whatever order the futures complete in, what is on the wire is a prefix of the
   * blocks in index order; a run that can go no further has written all of it; and
   * every run stops within a fixed number of steps.
   */
  lemma OrderIsIrrelevant<M(!new)>(blocks: seq<seq<M>>, steps: seq<Step>, w: Writer<M>)
    requires Run(blocks, steps, w)
    ensures w.written <= Flatten(blocks)
    ensures |steps| <= 2 * |blocks| + |Flatten(blocks)|
    ensures (forall step :: !Enabled(w, step)) <==> |steps| == 2 * |blocks| + |Flatten(blocks)|
    ensures (forall step :: !Enabled(w, step)) ==> w.written == Flatten(blocks)
  {
    RunKeepsInv(blocks, steps, w);
    WrittenIsPrefix(blocks, w, |steps|);
    if forall step :: !Enabled(w, step) {
      Stuck(blocks, w, |steps|);
    }
    if |steps| == 2 * |blocks| + |Flatten(blocks)| {
      ExhaustedIsStuck(blocks, w, |steps|);
    }
  }

  lemma WrittenIsPrefix<M>(blocks: seq<seq<M>>, w: Writer<M>, n: nat)
    requires Inv(blocks, w, n)
    ensures w.written <= Flatten(blocks)
    ensures n <= 2 * |blocks| + |Flatten(blocks)|
  {
  }

  lemma ExhaustedIsStuck<M>(blocks: seq<seq<M>>, w: Writer<M>, n: nat)
    requires Inv(blocks, w, n) && n == 2 * |blocks| + |Flatten(blocks)|
    ensures forall step :: !Enabled(w, step)
  {
  }

  lemma Stuck<M>(blocks: seq<seq<M>>, w: Writer<M>, n: nat)
    requires Inv(blocks, w, n) && forall step :: !Enabled(w, step)
    ensures w.taken == |blocks| && w.current == [] && Unfilled(w.slots) == 0
    ensures w.written == Flatten(blocks)
  {
    assert !Enabled(w, Write) && !Enabled(w, Take);
    forall i | 0 <= i < |w.slots|
      ensures w.slots[i].Some?
    {
      assert !Enabled(w, Finish(i));
    }
    AllFilled(w.slots);
    assert blocks[w.taken..] == [];
  }

  /**
   * The look-ahead C# stream and the concurrent C++ writer put the same messages on
   * the wire: for any scheduling of the futures, a finished C++ run has written
   * exactly what an uncancelled C# iterator yields.
   */
  lemma LookAheadEqualsConcurrent(ts: seq<TaskRequest>, sessionId: string, options: TaskOptions, max: nat,
                                  blocks: seq<seq<ClientMessage>>, steps: seq<Step>, w: Writer<ClientMessage>)
    requires max > 0
    requires Flatten(blocks) == Encode(sessionId, Some(options), ts, max)
    requires Run(blocks, steps, w) && forall step :: !Enabled(w, step)
    ensures w.written == Framed(InitRequest(sessionId, Some(options)), Emitted(ts, max, None))
    ensures DecodeClient(w.written) == Some(Submission(sessionId, Some(options), Sents(ts)))
  {
    OrderIsIrrelevant(blocks, steps, w);
    UndisturbedIsComplete(ts, max, None);
    RoundTrip(sessionId, Some(options), ts, max);
  }
}
