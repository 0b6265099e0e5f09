/**
  Truncated back-propagation-through-time segmentation (`RNNLM.get_batches` in
  model.py). A flat sequence of L items is cut into B contiguous streams of
  n = L div B items each, laid out as n timestep rows of width B, and the rows
  are cut into consecutive windows of at most W rows, each paired with the rows
  one timestep later as its targets.
 */
module Batching {
  import opened Seqs
  import opened Arith

  /** One step's input rows `x` and its targets `y`: the rows one timestep later, flattened row-major. */
  datatype Batch<T> = Batch(x: seq<seq<T>>, y: seq<T>)

  predicate Rectangular<T>(grid: seq<seq<T>>, width: nat)
  {
    forall t :: 0 <= t < |grid| ==> |grid[t]| == width
  }

  /** The first `m` runs of `n` consecutive items of the data: `data[:n * m].view(m, n)`. */
  function Runs<T>(data: seq<T>, n: nat, m: nat): (rs: seq<seq<T>>)
    requires n * m <= |data|
    ensures |rs| == m
  {
    seq(m, (j: int) requires 0 <= j < m =>
      RunInRange(|data|, m, n, j);
      data[j * n..j * n + n])
  }

  /** Every run holds `n` items. */
  lemma RunsWidth<T>(data: seq<T>, n: nat, m: nat)
    requires n * m <= |data|
    ensures Rectangular(Runs(data, n, m), n)
  {
    forall j | 0 <= j < m ensures |Runs(data, n, m)[j]| == n {
      RunInRange(|data|, m, n, j);
    }
  }

  /** Column `j` of a grid of the given width, top to bottom. */
  function Column<T>(grid: seq<seq<T>>, width: nat, j: nat): (c: seq<T>)
    requires Rectangular(grid, width) && j < width
    ensures |c| == |grid|
  {
    seq(|grid|, (t: int) requires 0 <= t < |grid| => grid[t][j])
  }

  /** `.t()`: the columns of the grid, in order, as rows. */
  function Transpose<T>(grid: seq<seq<T>>, width: nat): (ss: seq<seq<T>>)
    requires Rectangular(grid, width)
    ensures |ss| == width && Rectangular(ss, |grid|)
  {
    seq(width, (j: int) requires 0 <= j < width => Column(grid, width, j))
  }

  /**
    `data[:n * B].view(B, n).t()` with `n = len(data) // B`: the B runs of n
    items, transposed into n timestep rows of width B.
   */
  function Layout<T>(data: seq<T>, streams: nat): (grid: seq<seq<T>>)
    requires streams > 0
    ensures |grid| == |data| / streams
    ensures Rectangular(grid, streams)
  {
    var n := |data| / streams;
    DivFacts(|data|, streams);
    RunsWidth(data, n, streams);
    Transpose(Runs(data, n, streams), n)
  }

  /** Row `t`, column `j` of the layout is item `j * n + t` of the data. */
  lemma LayoutAt<T>(data: seq<T>, streams: nat, t: nat, j: nat)
    requires streams > 0 && t < |data| / streams && j < streams
    ensures j * (|data| / streams) + t < |data|
    ensures Layout(data, streams)[t][j] == data[j * (|data| / streams) + t]
  {
    var n := |data| / streams;
    DivFacts(|data|, streams);
    RunInRange(|data|, streams, n, j);
    RunAt(data, n, streams, j, t, j * n);
  }

  lemma RunAt<T>(data: seq<T>, n: nat, m: nat, j: nat, t: nat, lo: nat)
    requires n * m <= |data| && j < m && t < n && lo == j * n && lo + n <= |data|
    ensures Rectangular(Runs(data, n, m), n)
    ensures Transpose(Runs(data, n, m), n)[t][j] == data[lo + t]
  {
    RunsWidth(data, n, m);
    assert Runs(data, n, m)[j] == data[lo..lo + n];
  }

  /** Stream `j` is the `j`-th contiguous run of n items of the data, in order. */
  lemma StreamIsContiguous<T>(data: seq<T>, streams: nat, j: nat)
    requires streams > 0 && j < streams
    ensures (j + 1) * (|data| / streams) <= |data|
    ensures Column(Layout(data, streams), streams, j) == data[j * (|data| / streams)..(j + 1) * (|data| / streams)]
  {
    var n := |data| / streams;
    DivFacts(|data|, streams);
    RunInRange(|data|, streams, n, j);
    MulSucc(j, n);
    ColumnRun(data, streams, n, j, j * n);
  }

  lemma ColumnRun<T>(data: seq<T>, streams: nat, n: nat, j: nat, lo: nat)
    requires streams > 0 && n == |data| / streams && j < streams
    requires lo == j * n && lo + n <= |data|
    ensures Column(Layout(data, streams), streams, j) == data[lo..lo + n]
  {
    var c := Column(Layout(data, streams), streams, j);
    forall t | 0 <= t < n ensures c[t] == data[lo..lo + n][t] {
      LayoutAt(data, streams, t, j);
    }
  }

  lemma RunsSnoc<T>(data: seq<T>, n: nat, m: nat)
    requires n * m <= |data| && m > 0
    ensures (m - 1) * n + n == n * m
    ensures n * (m - 1) == (m - 1) * n
    ensures n * (m - 1) <= |data|
    ensures Runs(data, n, m) == Runs(data, n, m - 1) + [data[(m - 1) * n..(m - 1) * n + n]]
  {
    MulLe(m - 1, m, n);
    MulSucc(m - 1, n);
  }

  /** The first `m` runs, put back together, are the first `m * n` items. */
  lemma {:induction false} RunsConcat<T>(data: seq<T>, n: nat, m: nat)
    requires n * m <= |data|
    ensures Concat(Runs(data, n, m)) == data[..n * m]
  {
    if m > 0 {
      RunsSnoc(data, n, m);
      RunsConcat(data, n, m - 1);
      RunsConcatStep(data, n, m, (m - 1) * n);
    }
  }

  lemma RunsConcatStep<T>(data: seq<T>, n: nat, m: nat, lo: nat)
    requires m > 0 && lo + n == n * m && n * m <= |data| && n * (m - 1) == lo
    requires Runs(data, n, m) == Runs(data, n, m - 1) + [data[lo..lo + n]]
    requires Concat(Runs(data, n, m - 1)) == data[..lo]
    ensures Concat(Runs(data, n, m)) == data[..n * m]
  {
    ConcatSnoc(Runs(data, n, m - 1), data[lo..lo + n]);
    assert data[..lo] + data[lo..lo + n] == data[..lo + n];
  }

  /**
    The B streams, one after the other, are exactly the data without its last
    `len mod B` items: nothing is duplicated or reordered, only that tail is dropped.
   */
  lemma StreamsCoverPrefix<T>(data: seq<T>, streams: nat)
    requires streams > 0
    ensures |data| - (|data| / streams) * streams == |data| % streams
    ensures Concat(Transpose(Layout(data, streams), streams)) == data[..(|data| / streams) * streams]
  {
    var n := |data| / streams;
    DivFacts(|data|, streams);
    var cols := Transpose(Layout(data, streams), streams);
    var runs := Runs(data, n, streams);
    forall j | 0 <= j < streams ensures cols[j] == runs[j] {
      StreamIsContiguous(data, streams, j);
      MulSucc(j, n);
    }
    assert cols == runs;
    RunsConcat(data, n, streams);
  }

  /**
    The window starting at row `i`: `seq_len = min(W, n - 1 - i)` input rows and
    the `seq_len` rows after row `i`, flattened, as targets.
   */
  function Window<T>(grid: seq<seq<T>>, i: nat, bptt: nat): (b: Batch<T>)
    requires i + 1 < |grid|
    ensures |b.x| == Min(bptt, |grid| - 1 - i)
  {
    var seqLen := Min(bptt, |grid| - 1 - i);
    Batch(grid[i..i + seqLen], Concat(grid[i + 1..i + 1 + seqLen]))
  }

  /** The windows that start at rows `i`, `i + W`, `i + 2W`, ... while below `n - 1`. */
  function BatchesFrom<T>(grid: seq<seq<T>>, i: nat, bptt: nat): seq<Batch<T>>
    requires bptt > 0
    decreases |grid| - i
  {
    if i + 1 >= |grid| then [] else [Window(grid, i, bptt)] + BatchesFrom(grid, i + bptt, bptt)
  }

  /** The first window from row `i` is the one at `i`; the others are the windows from `i + W`. */
  lemma BatchesFromHead<T>(grid: seq<seq<T>>, i: nat, bptt: nat)
    requires bptt > 0 && i + 1 < |grid|
    ensures |BatchesFrom(grid, i, bptt)| == 1 + |BatchesFrom(grid, i + bptt, bptt)|
    ensures BatchesFrom(grid, i, bptt)[0] == Window(grid, i, bptt)
    ensures BatchesFrom(grid, i, bptt)[1..] == BatchesFrom(grid, i + bptt, bptt)
  {
  }

  /** What `get_batches` returns for a laid-out grid: the windows at `range(0, n - 1, W)`. */
  function Batches<T>(grid: seq<seq<T>>, bptt: nat): seq<Batch<T>>
    requires bptt > 0
  {
    BatchesFrom(grid, 0, bptt)
  }

  /**
    Once the windows before row `i` are collected, appending the window at `i`
    leaves those from `i + W`.
   */
  lemma BatchesFromStep<T>(grid: seq<seq<T>>, bptt: nat, all: seq<Batch<T>>, done: seq<Batch<T>>, i: nat, b: Batch<T>)
    requires bptt > 0 && i + 1 < |grid|
    requires done + BatchesFrom(grid, i, bptt) == all
    requires b == Window(grid, i, bptt)
    ensures (done + [b]) + BatchesFrom(grid, i + bptt, bptt) == all
  {
    AppendAssoc(done, [b], BatchesFrom(grid, i + bptt, bptt));
  }

  /**
    The loop of `get_batches`: for `i` in `range(0, n - 1, W)` it appends the
    window at row `i`, with `seq_len = min(W, n - i - 1)`.
   */
  method CutWindows<T>(grid: seq<seq<T>>, bptt: nat) returns (batches: seq<Batch<T>>)
    requires bptt > 0
    ensures batches == Batches(grid, bptt)
  {
    ghost var all := Batches(grid, bptt);
    batches := [];
    var i: nat := 0;
    assert batches + BatchesFrom(grid, i, bptt) == all;
    while i < |grid| - 1
      invariant batches + BatchesFrom(grid, i, bptt) == all
    {
      var seqLen := Min(bptt, |grid| - i - 1);
      var x := grid[i..i + seqLen];
      var y := Concat(grid[i + 1..i + 1 + seqLen]);
      BatchesFromStep(grid, bptt, all, batches, i, Batch(x, y));
      batches := batches + [Batch(x, y)];
      i := i + bptt;
    }
    assert batches + [] == batches;
  }

  /** The input rows of all windows, in order. */
  function Inputs<T>(bs: seq<Batch<T>>): seq<seq<T>>
  {
    if bs == [] then [] else bs[0].x + Inputs(bs[1..])
  }

  /** The targets of all windows, in order. */
  function Targets<T>(bs: seq<Batch<T>>): seq<T>
  {
    if bs == [] then [] else bs[0].y + Targets(bs[1..])
  }

  /** The number of target positions over all windows (what `evaluate` counts). */
  function TokenCount<T>(bs: seq<Batch<T>>): nat
  {
    if bs == [] then 0 else |bs[0].y| + TokenCount(bs[1..])
  }

  lemma {:induction false} InputsAppend<T>(a: seq<Batch<T>>, b: seq<Batch<T>>)
    ensures Inputs(a + b) == Inputs(a) + Inputs(b)
  {
    if a == [] {
      assert a + b == b;
    } else {
      assert (a + b)[1..] == a[1..] + b;
      InputsAppend(a[1..], b);
    }
  }

  /** The inputs of all windows are those of all but the last, then the last one's. */
  lemma InputsSnoc<T>(bs: seq<Batch<T>>)
    requires bs != []
    ensures Inputs(bs) == Inputs(bs[..|bs| - 1]) + bs[|bs| - 1].x
  {
    var init, last := bs[..|bs| - 1], bs[|bs| - 1];
    assert bs == init + [last];
    InputsAppend(init, [last]);
    InputsSingle(last);
  }

  lemma InputsSingle<T>(b: Batch<T>)
    ensures Inputs([b]) == b.x
  {
    assert [b][1..] == [];
    assert b.x + [] == b.x;
  }

  lemma {:induction false} TokenCountAppend<T>(a: seq<Batch<T>>, b: seq<Batch<T>>)
    ensures TokenCount(a + b) == TokenCount(a) + TokenCount(b)
  {
    if a == [] {
      assert a + b == b;
    } else {
      assert (a + b)[1..] == a[1..] + b;
      TokenCountAppend(a[1..], b);
    }
  }

  /** The number of windows from row `i` is c with `(c - 1) * W < n - 1 - i <= c * W`. */
  lemma {:induction false} BatchesFromCount<T>(grid: seq<seq<T>>, i: nat, bptt: nat)
    requires bptt > 0
    ensures i + 1 >= |grid| ==> |BatchesFrom(grid, i, bptt)| == 0
    ensures i + 1 < |grid| ==>
      var c := |BatchesFrom(grid, i, bptt)|;
      (c - 1) * bptt < |grid| - 1 - i <= c * bptt
    decreases |grid| - i
  {
    if i + 1 < |grid| {
      BatchesFromCount(grid, i + bptt, bptt);
      assert |BatchesFrom(grid, i, bptt)| == |BatchesFrom(grid, i + bptt, bptt)| + 1;
      CeilStep(|grid| - 1 - i, bptt, |BatchesFrom(grid, i + bptt, bptt)|);
    }
  }

  /** There are `ceil((n - 1) / W)` windows when `n >= 2`, and none when `n <= 1`. */
  lemma WindowCount<T>(grid: seq<seq<T>>, bptt: nat)
    requires bptt > 0
    ensures |grid| <= 1 ==> |Batches(grid, bptt)| == 0
    ensures |grid| >= 2 ==> |Batches(grid, bptt)| == (|grid| - 1 + bptt - 1) / bptt
  {
    BatchesFromCount(grid, 0, bptt);
    if |grid| >= 2 {
      CeilDiv(|grid| - 1, bptt, |Batches(grid, bptt)|);
    }
  }

  /** Window `k` from row `i` is the window that starts at row `i + k * W`, and that row is below `n - 1`. */
  lemma {:induction false} BatchesFromAt<T>(grid: seq<seq<T>>, i: nat, bptt: nat, k: nat)
    requires bptt > 0 && k < |BatchesFrom(grid, i, bptt)|
    ensures i + k * bptt + 1 < |grid|
    ensures BatchesFrom(grid, i, bptt)[k] == Window(grid, i + k * bptt, bptt)
    decreases k
  {
    assert i + 1 < |grid|;
    BatchesFromHead(grid, i, bptt);
    if k > 0 {
      BatchesFromAt(grid, i + bptt, bptt, k - 1);
      MulSucc(k - 1, bptt);
      LaterWindow(BatchesFrom(grid, i, bptt), BatchesFrom(grid, i + bptt, bptt), k);
    }
  }

  lemma LaterWindow<T>(bs: seq<Batch<T>>, rest: seq<Batch<T>>, k: nat)
    requires 0 < k < |bs| && bs[1..] == rest
    ensures bs[k] == rest[k - 1]
  {
  }

  /**
    The windows start at rows `0, W, 2W, ...`, so the starts strictly increase
    and all lie below `n - 1`.
   */
  lemma WindowStarts<T>(grid: seq<seq<T>>, bptt: nat, k: nat)
    requires bptt > 0 && k < |Batches(grid, bptt)|
    ensures k * bptt + 1 < |grid|
    ensures Batches(grid, bptt)[k] == Window(grid, k * bptt, bptt)
  {
    BatchesFromAt(grid, 0, bptt, k);
  }

  /**
    The window at row `i` has `seq_len` between 1 and W input rows, which are
    grid rows `i .. i + seq_len`; its targets are the rows one timestep later,
    `i + 1 .. i + 1 + seq_len`, flattened, `seq_len * B` items in all.
   */
  lemma WindowShape<T>(grid: seq<seq<T>>, width: nat, i: nat, bptt: nat)
    requires Rectangular(grid, width) && bptt > 0 && i + 1 < |grid|
    ensures var w := Window(grid, i, bptt);
      && |w.x| == Min(bptt, |grid| - 1 - i)
      && 1 <= |w.x| <= bptt
      && w.x == grid[i..i + |w.x|]
      && w.y == Concat(grid[i + 1..i + 1 + |w.x|])
      && |w.y| == |w.x| * width
  {
    var seqLen := Min(bptt, |grid| - 1 - i);
    ConcatUniformLength(grid[i + 1..i + 1 + seqLen], width);
  }

  /**
    Target `k * B + j` of a window is the item the model must predict after
    input row `k`, column `j`: row `i + k + 1`, column `j` of the grid; for all
    rows but the window's last this is its next input row.
   */
  lemma TargetAt<T>(grid: seq<seq<T>>, width: nat, i: nat, bptt: nat, k: nat, j: nat)
    requires Rectangular(grid, width) && bptt > 0 && i + 1 < |grid|
    requires k < |Window(grid, i, bptt).x| && j < width
    ensures k * width + j < |Window(grid, i, bptt).y|
    ensures Window(grid, i, bptt).y[k * width + j] == grid[i + k + 1][j]
    ensures k + 1 < |Window(grid, i, bptt).x| ==> Window(grid, i, bptt).y[k * width + j] == Window(grid, i, bptt).x[k + 1][j]
  {
    var seqLen := Min(bptt, |grid| - 1 - i);
    ConcatUniformAt(grid[i + 1..i + 1 + seqLen], width, k, j);
  }

  /** Every window has at least one input row, so `x.shape[1]` is always defined for it. */
  lemma WindowsNonEmpty<T>(grid: seq<seq<T>>, bptt: nat)
    requires bptt > 0
    ensures forall k :: 0 <= k < |Batches(grid, bptt)| ==> |Batches(grid, bptt)[k].x| >= 1
  {
    forall k | 0 <= k < |Batches(grid, bptt)| ensures |Batches(grid, bptt)[k].x| >= 1 {
      WindowStarts(grid, bptt, k);
    }
  }

  /** Only the final window can be shorter than W. */
  lemma OnlyLastShort<T>(grid: seq<seq<T>>, bptt: nat, k: nat)
    requires bptt > 0 && k + 1 < |Batches(grid, bptt)|
    ensures |Batches(grid, bptt)[k].x| == bptt
  {
    WindowStarts(grid, bptt, k);
    WindowStarts(grid, bptt, k + 1);
    MulSucc(k, bptt);
    var start := k * bptt;
    assert |grid| - 1 - start > bptt;
  }

  /** The input rows of the windows from row `i` are rows `i .. n - 1`, each once, in order. */
  lemma {:induction false} InputsFrom<T>(grid: seq<seq<T>>, i: nat, bptt: nat)
    requires bptt > 0
    ensures i + 1 < |grid| ==> Inputs(BatchesFrom(grid, i, bptt)) == grid[i..|grid| - 1]
    ensures i + 1 >= |grid| ==> Inputs(BatchesFrom(grid, i, bptt)) == []
    decreases |grid| - i
  {
    if i + 1 < |grid| {
      InputsFrom(grid, i + bptt, bptt);
      InputsStep(grid, i, bptt);
    }
  }

  lemma InputsStep<T>(grid: seq<seq<T>>, i: nat, bptt: nat)
    requires bptt > 0 && i + 1 < |grid|
    requires i + bptt + 1 < |grid| ==> Inputs(BatchesFrom(grid, i + bptt, bptt)) == grid[i + bptt..|grid| - 1]
    requires i + bptt + 1 >= |grid| ==> Inputs(BatchesFrom(grid, i + bptt, bptt)) == []
    ensures Inputs(BatchesFrom(grid, i, bptt)) == grid[i..|grid| - 1]
  {
    InputsHead(grid, i, bptt);
    RowsJoin(grid, i, bptt, Inputs(BatchesFrom(grid, i, bptt)), Inputs(BatchesFrom(grid, i + bptt, bptt)));
  }

  /** The window's rows followed by the rows from `i + W` to `n - 1` are the rows from `i` to `n - 1`. */
  lemma RowsJoin<T>(grid: seq<seq<T>>, i: nat, bptt: nat, whole: seq<seq<T>>, rest: seq<seq<T>>)
    requires bptt > 0 && i + 1 < |grid|
    requires whole == grid[i..i + Min(bptt, |grid| - 1 - i)] + rest
    requires i + bptt + 1 < |grid| ==> rest == grid[i + bptt..|grid| - 1]
    requires i + bptt + 1 >= |grid| ==> rest == []
    ensures whole == grid[i..|grid| - 1]
  {
    if i + bptt + 1 < |grid| {
      SliceJoin(grid, i, i + bptt, |grid| - 1);
    } else {
      assert grid[i..|grid| - 1] + [] == grid[i..|grid| - 1];
    }
  }

  /** The inputs from row `i` are the first window's rows followed by the inputs from row `i + W`. */
  lemma InputsHead<T>(grid: seq<seq<T>>, i: nat, bptt: nat)
    requires bptt > 0 && i + 1 < |grid|
    ensures Inputs(BatchesFrom(grid, i, bptt))
      == grid[i..i + Min(bptt, |grid| - 1 - i)] + Inputs(BatchesFrom(grid, i + bptt, bptt))
  {
    BatchesFromHead(grid, i, bptt);
  }

  /** The targets from row `i` are the first window's targets followed by the targets from row `i + W`. */
  lemma TargetsHead<T>(grid: seq<seq<T>>, i: nat, bptt: nat)
    requires bptt > 0 && i + 1 < |grid|
    ensures Targets(BatchesFrom(grid, i, bptt))
      == Concat(grid[i + 1..i + 1 + Min(bptt, |grid| - 1 - i)]) + Targets(BatchesFrom(grid, i + bptt, bptt))
  {
    BatchesFromHead(grid, i, bptt);
  }

  /** The targets of the windows from row `i` are rows `i + 1 .. n`, flattened, each once, in order. */
  lemma {:induction false} TargetsFrom<T>(grid: seq<seq<T>>, i: nat, bptt: nat)
    requires bptt > 0
    ensures i + 1 < |grid| ==> Targets(BatchesFrom(grid, i, bptt)) == Concat(grid[i + 1..])
    ensures i + 1 >= |grid| ==> Targets(BatchesFrom(grid, i, bptt)) == []
    decreases |grid| - i
  {
    if i + 1 < |grid| {
      TargetsFrom(grid, i + bptt, bptt);
      TargetsStep(grid, i, bptt);
    }
  }

  lemma TargetsStep<T>(grid: seq<seq<T>>, i: nat, bptt: nat)
    requires bptt > 0 && i + 1 < |grid|
    requires i + bptt + 1 < |grid| ==> Targets(BatchesFrom(grid, i + bptt, bptt)) == Concat(grid[i + bptt + 1..])
    requires i + bptt + 1 >= |grid| ==> Targets(BatchesFrom(grid, i + bptt, bptt)) == []
    ensures Targets(BatchesFrom(grid, i, bptt)) == Concat(grid[i + 1..])
  {
    TargetsHead(grid, i, bptt);
    TargetRowsJoin(grid, i, bptt, Targets(BatchesFrom(grid, i, bptt)), Targets(BatchesFrom(grid, i + bptt, bptt)));
  }

  /** The window's targets followed by the flattened rows after `i + W` are the flattened rows after `i`. */
  lemma TargetRowsJoin<T>(grid: seq<seq<T>>, i: nat, bptt: nat, whole: seq<T>, rest: seq<T>)
    requires bptt > 0 && i + 1 < |grid|
    requires whole == Concat(grid[i + 1..i + 1 + Min(bptt, |grid| - 1 - i)]) + rest
    requires i + bptt + 1 < |grid| ==> rest == Concat(grid[i + bptt + 1..])
    requires i + bptt + 1 >= |grid| ==> rest == []
    ensures whole == Concat(grid[i + 1..])
  {
    var rows := grid[i + 1..i + 1 + Min(bptt, |grid| - 1 - i)];
    if i + bptt + 1 < |grid| {
      var after := grid[i + bptt + 1..];
      assert rows + after == grid[i + 1..];
      ConcatAppend(rows, after);
    } else {
      assert rows == grid[i + 1..];
      assert Concat(rows) + [] == Concat(rows);
    }
  }

  /**
    Over all windows, the inputs are grid rows `0 .. n - 2` and the targets grid
    rows `1 .. n - 1` (flattened), each exactly once and in order.
   */
  lemma InputsAndTargetsCover<T>(grid: seq<seq<T>>, bptt: nat)
    requires bptt > 0 && |grid| >= 1
    ensures Inputs(Batches(grid, bptt)) == grid[..|grid| - 1]
    ensures Targets(Batches(grid, bptt)) == Concat(grid[1..])
  {
    InputsFrom(grid, 0, bptt);
    TargetsFrom(grid, 0, bptt);
    if |grid| == 1 {
      assert grid[1..] == [];
    }
  }

  lemma {:induction false} TokenCountIsTargets<T>(bs: seq<Batch<T>>)
    ensures TokenCount(bs) == |Targets(bs)|
  {
    if bs != [] {
      TokenCountIsTargets(bs[1..]);
    }
  }

  /** The windows hold `(n - 1) * B` target positions in all, the final short window included. */
  lemma TokenTotal<T>(grid: seq<seq<T>>, width: nat, bptt: nat)
    requires Rectangular(grid, width) && bptt > 0 && |grid| >= 1
    ensures TokenCount(Batches(grid, bptt)) == (|grid| - 1) * width
  {
    InputsAndTargetsCover(grid, bptt);
    TokenCountIsTargets(Batches(grid, bptt));
    ConcatUniformLength(grid[1..], width);
  }

  lemma ConcatPair<T>(a: seq<T>, b: seq<T>)
    ensures Concat([a, b]) == a + b
  {
    assert [a, b][1..] == [b];
    assert Concat([b]) == b + Concat([]);
  }

  const ALPHABET: string := "abcdefghijklmnopqrstuvwxyz"

  const ALPHABET_ROWS: seq<string> := ["agms", "bhnt", "ciou", "djpv", "ekqw", "flrx"]

  /** Row `t` of the alphabet as 4 streams: letters `t`, `t + 6`, `t + 12` and `t + 18`. */
  lemma AlphabetRow(t: nat)
    requires t < 6
    ensures |Layout(ALPHABET, 4)| == 6
    ensures Layout(ALPHABET, 4)[t] == ALPHABET_ROWS[t]
  {
    LayoutAt(ALPHABET, 4, t, 0);
    LayoutAt(ALPHABET, 4, t, 1);
    LayoutAt(ALPHABET, 4, t, 2);
    LayoutAt(ALPHABET, 4, t, 3);
    match t
    case 0 =>
    case 1 =>
    case 2 =>
    case 3 =>
    case 4 =>
    case 5 =>
  }

  /** The alphabet as 4 streams: 6 rows "agms" .. "flrx", with "yz" dropped. */
  lemma AlphabetLayout()
    ensures Layout(ALPHABET, 4) == ALPHABET_ROWS
  {
    forall t | 0 <= t < 6 ensures Layout(ALPHABET, 4)[t] == ALPHABET_ROWS[t] {
      AlphabetRow(t);
    }
    AlphabetRow(0);
  }

  /**
    The alphabet with B = 4 and W = 2 gives three windows, the first with
    x = ["agms", "bhnt"] and y = "bhntciou", the last one row long.
   */
  lemma AlphabetExample()
    ensures Layout(ALPHABET, 4) == ["agms", "bhnt", "ciou", "djpv", "ekqw", "flrx"]
    ensures Batches(Layout(ALPHABET, 4), 2) == [
           Batch(["agms", "bhnt"], "bhntciou"),
           Batch(["ciou", "djpv"], "djpvekqw"),
           Batch(["ekqw"], "flrx")]
  {
    AlphabetLayout();
    var grid := ALPHABET_ROWS;
    assert grid[0..2] == ["agms", "bhnt"];
    assert grid[2..4] == ["ciou", "djpv"];
    assert grid[4..5] == ["ekqw"];
    assert grid[1..3] == ["bhnt", "ciou"];
    assert grid[3..5] == ["djpv", "ekqw"];
    assert grid[5..6] == ["flrx"];
    ConcatPair("bhnt", "ciou");
    ConcatPair("djpv", "ekqw");
    assert Concat(["flrx"]) == "flrx" + Concat([]);
    assert Concat(grid[1..3]) == "bhntciou";
    assert Concat(grid[3..5]) == "djpvekqw";
    assert Concat(grid[5..6]) == "flrx";
    assert Window(grid, 0, 2) == Batch(grid[0..2], Concat(grid[1..3]));
    assert Window(grid, 2, 2) == Batch(grid[2..4], Concat(grid[3..5]));
    assert Window(grid, 4, 2) == Batch(grid[4..5], Concat(grid[5..6]));
    assert BatchesFrom(grid, 6, 2) == [];
    assert BatchesFrom(grid, 4, 2) == [Window(grid, 4, 2)];
    assert BatchesFrom(grid, 2, 2) == [Window(grid, 2, 2)] + BatchesFrom(grid, 4, 2);
    assert BatchesFrom(grid, 0, 2) == [Window(grid, 0, 2)] + BatchesFrom(grid, 2, 2);
  }
}
