/**
  The state handling of the recurrent language model (`RNNLM` in model.py):
  the truncated-BPTT batching of an encoded corpus, the `prev_histories`
  field that carries the recurrent state from one window to the next, and the
  token counting of `evaluate`.

  The tensor arithmetic is abstract. The recurrent cell is a fold of a
  per-timestep `step` over the input rows. `init_state` is a function of the
  batch width. The per-position loss is a function of the window's starting
  state, its inputs, its targets and the position. `detach` is the identity on
  values.
 */
module Model {
  import opened Seqs
  import opened Batching

  /** The stored previous histories: `None` or the state left by the last forward pass. */
  datatype History<S> = Unset | Carrying(state: S)

  /** The state the recurrent cell reaches from `h` after reading `rows`, one timestep at a time. */
  function Recur<S>(step: (S, seq<nat>) -> S, h: S, rows: seq<seq<nat>>): S
  {
    if rows == [] then h else Recur(step, step(h, rows[0]), rows[1..])
  }

  /** Reading two blocks of rows one after the other is reading their concatenation. */
  lemma {:induction false} RecurAppend<S>(step: (S, seq<nat>) -> S, h: S, a: seq<seq<nat>>, b: seq<seq<nat>>)
    ensures Recur(step, h, a + b) == Recur(step, Recur(step, h, a), b)
  {
    if a == [] {
      assert a + b == b;
    } else {
      assert (a + b)[1..] == a[1..] + b;
      RecurAppend(step, step(h, a[0]), a[1..], b);
    }
  }

  /** The state after the last row is one step from the state after all rows before it. */
  lemma RecurLast<S>(step: (S, seq<nat>) -> S, h: S, rows: seq<seq<nat>>)
    requires rows != []
    ensures Recur(step, h, rows) == step(Recur(step, h, rows[..|rows| - 1]), rows[|rows| - 1])
  {
    var init, last := rows[..|rows| - 1], rows[|rows| - 1];
    assert rows == init + [last];
    RecurAppend(step, h, init, [last]);
  }

  /** `tensor.detach()`: cuts the gradient history and keeps the value. */
  function Detach<S>(s: S): S
  {
    s
  }

  predicate InputsNonEmpty(bs: seq<Batch<nat>>)
  {
    forall k :: 0 <= k < |bs| ==> |bs[k].x| > 0
  }

  class RNNLM<S, L> {
    const bpttSteps: nat
    /** `init_state(batch_size)`: the zero state for a batch of that width. */
    const initState: nat -> S
    /** One timestep of the recurrent cell: the new state after reading one row of token indices. */
    const step: (S, seq<nat>) -> S
    /** The loss at target position `p` of a window, given its starting state, inputs and targets. */
    const tokenLoss: (S, seq<seq<nat>>, seq<nat>, nat) -> L
    var prevHistories: History<S>

    /** The model starts with no stored history. */
    constructor (bpttSteps: nat, initState: nat -> S, step: (S, seq<nat>) -> S, tokenLoss: (S, seq<seq<nat>>, seq<nat>, nat) -> L)
      ensures this.bpttSteps == bpttSteps && this.initState == initState
      ensures this.step == step && this.tokenLoss == tokenLoss
      ensures prevHistories == Unset
    {
      this.bpttSteps := bpttSteps;
      this.initState := initState;
      this.step := step;
      this.tokenLoss := tokenLoss;
      prevHistories := Unset;
    }

    /** The state a window starts from: the stored one, or zeros of the window's batch width when none is stored. */
    function StartState(h: History<S>, x: seq<seq<nat>>): S
      requires |x| > 0
    {
      match h
      case Unset => initState(|x[0]|)
      case Carrying(s) => s
    }

    /** The stored history after a forward pass over `x` from history `h`. */
    function Advance(h: History<S>, x: seq<seq<nat>>): History<S>
      requires |x| > 0
    {
      Carrying(Detach(Recur(step, StartState(h, x), x)))
    }

    /** The per-position losses of one window, one for every target. */
    function WindowLosses(h0: S, x: seq<seq<nat>>, y: seq<nat>): (r: seq<L>)
      ensures |r| == |y|
    {
      seq(|y|, (p: int) requires 0 <= p < |y| => tokenLoss(h0, x, y, p))
    }

    /** The stored history after forward passes over all `bs`, in order, from `h`. */
    function RunState(h: History<S>, bs: seq<Batch<nat>>): History<S>
      requires InputsNonEmpty(bs)
    {
      if bs == [] then h else Advance(RunState(h, bs[..|bs| - 1]), bs[|bs| - 1].x)
    }

    /** The losses of forward passes over all `bs`, in order, from `h`, concatenated. */
    function RunLosses(h: History<S>, bs: seq<Batch<nat>>): seq<L>
      requires InputsNonEmpty(bs)
    {
      if bs == [] then []
      else
        var last := bs[|bs| - 1];
        RunLosses(h, bs[..|bs| - 1]) + WindowLosses(StartState(RunState(h, bs[..|bs| - 1]), last.x), last.x, last.y)
    }

    /** `clear_hidden_states`. */
    method ClearHiddenStates()
      modifies this
      ensures prevHistories == Unset
    {
      prevHistories := Unset;
    }

    /** `save_hidden_states` for a single state tensor: stores it detached. */
    method SaveHiddenStates(lastStates: S)
      modifies this
      ensures prevHistories == Carrying(Detach(lastStates))
    {
      prevHistories := Carrying(Detach(lastStates));
    }

    /**
      `forward`: with no stored history the window starts from zeros of width
      `x.shape[1]`, otherwise from the stored state; the cell's last state is
      stored for the next call, and there is one loss per target.
     */
    method Forward(x: seq<seq<nat>>, y: seq<nat>) returns (losses: seq<L>)
      requires |x| > 0
      modifies this
      ensures old(prevHistories) == Unset ==>
        prevHistories == Carrying(Recur(step, initState(|x[0]|), x)) &&
        losses == WindowLosses(initState(|x[0]|), x, y)
      ensures old(prevHistories).Carrying? ==>
        prevHistories == Carrying(Recur(step, old(prevHistories).state, x)) &&
        losses == WindowLosses(old(prevHistories).state, x, y)
      ensures prevHistories == Advance(old(prevHistories), x)
      ensures |losses| == |y|
    {
      if prevHistories == Unset {
        prevHistories := Carrying(initState(|x[0]|));
      }
      var h0 := prevHistories.state;
      var lastHid := Recur(step, h0, x);
      SaveHiddenStates(lastHid);
      losses := WindowLosses(h0, x, y);
    }

    /**
      `get_batches`: lays the data out as `batch_size` streams, then cuts the
      rows into the windows at rows `0, W, 2W, ...` below `n - 1`.
     */
    method GetBatches(dataTensor: seq<nat>, batchSize: nat) returns (batches: seq<Batch<nat>>)
      requires batchSize > 0 && bpttSteps > 0
      ensures batches == Batches(Layout(dataTensor, batchSize), bpttSteps)
    {
      var data := Layout(dataTensor, batchSize);
      batches := CutWindows(data, bpttSteps);
    }

    /**
      `evaluate`: clears the history, runs a forward pass over every window in
      order (each pass carrying the state to the next), counts the target
      positions, and clears the history again. `tokenLosses` holds every
      per-token loss, in order: the terms that `evaluate` sums into
      `total_loss` before dividing by `totalTokens`.
     */
    method Evaluate(batches: seq<Batch<nat>>) returns (tokenLosses: seq<L>, totalTokens: nat)
      requires InputsNonEmpty(batches)
      modifies this
      ensures prevHistories == Unset
      ensures tokenLosses == RunLosses(Unset, batches)
      ensures totalTokens == |tokenLosses| == TokenCount(batches)
    {
      ClearHiddenStates();
      tokenLosses := [];
      totalTokens := 0;
      for k := 0 to |batches|
        invariant prevHistories == RunState(Unset, batches[..k])
        invariant tokenLosses == RunLosses(Unset, batches[..k])
        invariant totalTokens == |tokenLosses| == TokenCount(batches[..k])
      {
        assert batches[..k + 1][..k] == batches[..k];
        TokenCountAppend(batches[..k], [batches[k]]);
        assert batches[..k + 1] == batches[..k] + [batches[k]];
        var loss := Forward(batches[k].x, batches[k].y);
        tokenLosses := tokenLosses + loss;
        totalTokens := totalTokens + |loss|;
      }
      assert batches[..|batches|] == batches;
      ClearHiddenStates();
    }

    /** Two forward passes with no clear in between continue one run of the cell over both windows' rows. */
    lemma ForwardTwice(h: History<S>, x1: seq<seq<nat>>, x2: seq<seq<nat>>)
      requires |x1| > 0 && |x2| > 0
      ensures Advance(Advance(h, x1), x2) == Carrying(Recur(step, StartState(h, x1), x1 + x2))
    {
      RecurAppend(step, StartState(h, x1), x1, x2);
    }

    /**
      Evaluating windows in order chains the state: after all of them the
      stored history is the cell's state after reading every input row, from
      zeros of the first window's width, in one run.
     */
    lemma {:induction false} ChainedRun(bs: seq<Batch<nat>>)
      requires bs != [] && InputsNonEmpty(bs)
      ensures RunState(Unset, bs) == Carrying(Recur(step, initState(|bs[0].x[0]|), Inputs(bs)))
    {
      var init, last := bs[..|bs| - 1], bs[|bs| - 1];
      InputsSnoc(bs);
      if init == [] {
        assert Inputs(init) == [];
        assert [] + last.x == last.x;
      } else {
        assert init[0] == bs[0];
        ChainedRun(init);
        ChainedStep(RunState(Unset, init), initState(|bs[0].x[0]|), Inputs(init), last.x);
      }
    }

    lemma ChainedStep(h: History<S>, s0: S, xs: seq<seq<nat>>, x: seq<seq<nat>>)
      requires |x| > 0 && h == Carrying(Recur(step, s0, xs))
      ensures Advance(h, x) == Carrying(Recur(step, s0, xs + x))
    {
      RecurAppend(step, s0, xs, x);
    }

    /**
      Truncated BPTT changes no forward value: evaluating the windows of
      `get_batches` leaves (just before the final clear) the state of one run of
      the cell, from zeros of width B, over grid rows `0 .. n - 2`.
     */
    lemma TruncatedBptt(dataTensor: seq<nat>, batchSize: nat)
      requires batchSize > 0 && bpttSteps > 0 && |dataTensor| / batchSize >= 2
      ensures var grid := Layout(dataTensor, batchSize);
        InputsNonEmpty(Batches(grid, bpttSteps)) &&
        RunState(Unset, Batches(grid, bpttSteps)) == Carrying(Recur(step, initState(batchSize), grid[..|grid| - 1]))
    {
      var grid := Layout(dataTensor, batchSize);
      var bs := Batches(grid, bpttSteps);
      WindowsNonEmpty(grid, bpttSteps);
      WindowCount(grid, bpttSteps);
      WindowStarts(grid, bpttSteps, 0);
      WindowShape(grid, batchSize, 0, bpttSteps);
      assert bs[0].x[0] == grid[0];
      ChainedRun(bs);
      InputsAndTargetsCover(grid, bpttSteps);
    }

    /** The losses of a run hold one entry per target position of every window. */
    lemma {:induction false} RunLossesCount(h: History<S>, bs: seq<Batch<nat>>)
      requires InputsNonEmpty(bs)
      ensures |RunLosses(h, bs)| == TokenCount(bs)
    {
      if bs != [] {
        var init, last := bs[..|bs| - 1], bs[|bs| - 1];
        RunLossesCount(h, init);
        TokenCountAppend(init, [last]);
        assert bs == init + [last];
        assert TokenCount([last]) == |last.y| + TokenCount([last][1..]);
      }
    }

    /**
      Evaluating the windows of `get_batches` counts `(n - 1) * B` tokens: every
      grid row but the first is predicted once, the final short window included.
     */
    lemma EvaluatedTokens(dataTensor: seq<nat>, batchSize: nat)
      requires batchSize > 0 && bpttSteps > 0
      ensures var grid := Layout(dataTensor, batchSize);
        InputsNonEmpty(Batches(grid, bpttSteps)) &&
        |RunLosses(Unset, Batches(grid, bpttSteps))| == if |grid| == 0 then 0 else (|grid| - 1) * batchSize
    {
      var grid := Layout(dataTensor, batchSize);
      WindowsNonEmpty(grid, bpttSteps);
      RunLossesCount(Unset, Batches(grid, bpttSteps));
      if |grid| == 0 {
        WindowCount(grid, bpttSteps);
      } else {
        TokenTotal(grid, batchSize, bpttSteps);
      }
    }
  }
}
