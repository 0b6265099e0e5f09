# A recurrent language-model trainer: vocabulary, corpus encoding and truncated BPTT

This project models the integer and sequence logic of a small recurrent
language-model trainer, and proves properties of that model. The trainer builds
a vocabulary from a text corpus and encodes the corpus as one flat sequence of
token indices. It cuts that sequence into truncated back-propagation-through-time
(BPTT) windows and runs a recurrent network over the windows. Between windows it
carries the hidden state over in `prev_histories`.

Modules:

- `Tokens` (tokens.dfy): what `str.strip()`, `str.split()` and `' '.join` do.
  Whitespace is the character set that Python's `str.isspace()` accepts.
- `Vocabulary` (vocabulary.py, vocabulary.dfy): the class `Vocab` holds the
  entry list `idx2word`, the inverse table `_word2idx` and `_unk_idx`.
  - Four reserved entries `<pad>`, `<s>`, `</s>` and `<unk>` come first, at
    indices 0–3.
  - `add_word` appends unseen words in first-seen order.
  - Lookup of an absent word gives index 3.
  - The invariant `Valid` says the list and the table are inverse bijections,
    and that the reserved entries stay in their places.
- `Preprocessor` (preprocessor.py, preprocessor.dfy): `corpus_to_tensor` over
  the lines of a file.
  - It strips each line and skips blank ones.
  - It wraps every other line in `<s> … </s>`, splits it, and looks each token up.
- `Batching` (batching.dfy): the data side of `RNNLM.get_batches`.
  - It keeps `n = L div B` rows and lays the data out as B contiguous streams
    (`view(B, n).t()`).
  - It cuts the rows into windows of at most W rows. Each window is paired with
    the rows one timestep later, flattened row-major, as targets.
  - It is generic in the item type.
- `Model` (model.py, model.dfy): the class `RNNLM`, with its `prev_histories`
  state machine, `forward`, `get_batches` and the token accounting of `evaluate`.
  - `History` is the stored state: `Unset` (Python `None`) or `Carrying(s)`.
  - The recurrent cell is abstract. It is a per-timestep `step` folded over the
    input rows (`Recur`).
  - `init_state` is an abstract function of the batch width.
  - The per-position loss is an abstract function `tokenLoss`.
  - `detach` is the identity on values.
- `Seqs` and `Arith` hold shared facts about sequences and about integer
  multiplication and division.

All file reading becomes sequences of lines. `build_from_file` and
`corpus_to_tensor` are modelled as `BuildFromLines` and `CorpusToIdxs`, which
take the file's lines.

`convert_idxs_to_words` indexes a Python list, so any index in `[-len, len)`
is accepted and negative ones count from the end; only indices outside that
range raise `IndexError`. `Vocab.Entry` models exactly that.

## Model

| member | source | states |
|---|---|---|
| Tokens.Strip | preprocessor.py:10 | `line.strip()` is empty exactly when the line is all whitespace; otherwise it starts and ends with a non-whitespace character; and it is a contiguous piece of the line with only whitespace cut off before and after it |
| Tokens.TrimLeft | preprocessor.py:10 | the left strip is a suffix of the line, everything cut off is whitespace, and what is left is empty or starts with non-whitespace |
| Tokens.TrimRight | preprocessor.py:10 | the right strip is a prefix of the line, everything cut off is whitespace, and what is left is empty or ends with non-whitespace |
| Tokens.Split | vocabulary.py:37 | `split()` yields non-empty tokens free of whitespace, which together hold every non-whitespace character of the line, in order |
| Tokens.SplitSeparated | vocabulary.py:37 | a whitespace character splits the line there: the tokens of `a + c + b` are those of `a` followed by those of `b`; with `SplitToken` and `SplitEmpty` this fixes `split()` on every line |
| Tokens.Join | vocabulary.py:43 | `' '.join(ws)`: the words with exactly one space between neighbours, so its length is the words' total length plus one less than their number |
| Tokens.SplitEmpty | preprocessor.py:10-12 | a line has no tokens exactly when it is all whitespace, so `if line:` after `strip()` skips exactly the token-less lines |
| Tokens.SplitStrip | vocabulary.py:37 | `line.strip().split()` gives the same tokens as `line.split()` |
| Tokens.SplitWrapped | preprocessor.py:14 | splitting `f"{a} {s} {b}"` for tokens `a`, `b` gives `[a] + s.split() + [b]` |
| Tokens.SplitJoin | vocabulary.py:43 | splitting the space-joined tokens gives the tokens back |
| Vocabulary.Vocab.constructor | vocabulary.py:5-21 | a fresh vocabulary is valid and holds exactly `<pad>, <s>, </s>, <unk>` at 0..3, its table maps them back, and `_unk_idx == 3` |
| Vocabulary.Vocab.AddWord | vocabulary.py:27-31 | a present word changes nothing; a new word is appended and mapped to the old length; the bijection is kept, and a valid vocabulary (reserved words at their indices) stays valid; the old table is a prefix of the new |
| Vocabulary.Vocab.Word2Idx | vocabulary.py:23-25 | a known word gives its stored index, which is its first position in `idx2word`; an absent word gives 3; the result is always below the size |
| Vocabulary.Vocab.BuildFromLines | vocabulary.py:33-39 | keeps the invariant, and the entries become the old ones with every token of every stripped line inserted in order |
| Vocabulary.InsertAllGrows | vocabulary.py:29-31 | inserting words never shrinks the list and keeps every earlier entry at its index; the entries are exactly the old ones and the words; no duplicates appear |
| Vocabulary.InsertAllFirstSeen | vocabulary.py:36-39 | every added entry is a word that was not there before, and the added entries stand in the order of their first occurrence |
| Vocabulary.FreshSize | vocabulary.py:33-39 | building a fresh vocabulary gives 4 + the number of distinct non-reserved tokens entries |
| Vocabulary.InsertAllIdempotent | vocabulary.py:29 | adding the same words a second time changes nothing |
| Vocabulary.BijectionFacts | vocabulary.py:27-31 | under the invariant, `idx2word` has no duplicates and the table's keys are exactly the entries, as many as there are |
| Vocabulary.ReservedBijection | vocabulary.py:12-21 | the reserved list and its four-entry table are inverse bijections |
| Vocabulary.Vocab.ReservedIndices | vocabulary.py:12-21 | in any valid vocabulary the reserved words look up to 0, 1, 2 and 3 |
| Vocabulary.Vocab.ConvertWordsToIdxs | vocabulary.py:45-47 | one index per word, each below the size: the word's own entry when present, 3 otherwise |
| Vocabulary.Vocab.ConvertAppend | vocabulary.py:45-47 | converting a concatenation of word lists is the concatenation of the conversions |
| Vocabulary.Vocab.Entry | vocabulary.py:43 | Python's `idx2word[idx]` for `-len <= idx < len`: always an entry of the vocabulary, the one at `idx mod len`, so a negative index counts from the end |
| Vocabulary.Vocab.IdxsToWords | vocabulary.py:43 | the entries named by the indices, one per index, with negative indices counted from the end |
| Vocabulary.Vocab.ConvertIdxsToWords | vocabulary.py:41-43 | when every named entry is a token, splitting the joined text gives exactly the named entries back |
| Vocabulary.Vocab.Length | vocabulary.py:49-51 | the size is the number of entries and of table keys, and at least 4 |
| Vocabulary.Vocab.RoundTrip | vocabulary.py:41-47 | words all in the vocabulary come back from their indices, joined by single spaces |
| Preprocessor.CorpusToIdxs | preprocessor.py:4-17 | the output is the concatenation, in line order, of every line's contribution; the vocabulary is only read |
| Preprocessor.LineStep | preprocessor.py:10-16 | a line that strips to empty contributes nothing, not even markers; otherwise the contribution is the lookup of the split marked line |
| Preprocessor.MarkedSplit | preprocessor.py:14-16 | the marked stripped line splits into `<s>`, the line's tokens, `</s>` |
| Preprocessor.MarkedLookup | preprocessor.py:14-16 | the markers are encoded as 1 and 2 around the lookups of the line's tokens |
| Preprocessor.EncodingAppend | preprocessor.py:9-16 | encoding two line lists one after the other gives the two encodings concatenated |
| Preprocessor.EncodingLength | preprocessor.py:12-16 | the output length is the sum over non-blank lines of their token count plus 2 |
| Preprocessor.EncodingIsLookup | preprocessor.py:14-16 | the output is the token-by-token lookup of the marked corpus |
| Preprocessor.EncodingInRange | preprocessor.py:16 | every output index lies in `[0, len(vocab))`, and every token the vocabulary lacks is encoded as 3 |
| Preprocessor.MarkedCorpusWords | preprocessor.py:14-16 | every marked word is a token, either a corpus token or one of the two markers |
| Preprocessor.DecodeRoundTrip | preprocessor.py:14-16 | if the vocabulary covers the corpus tokens, decoding the output gives the marked corpus joined by spaces, and splitting that gives it back token for token |
| Preprocessor.BuiltCovers | vocabulary.py:33-39 | with a vocabulary built from the same lines, decoding the encoding gives the marked corpus back |
| Batching.Runs | model.py:179-180 | `data[:n * B].view(B, n)`: B rows, row j holding the j-th run of n consecutive items |
| Batching.Transpose | model.py:180 | `.t()`: one row per column of the grid, so a grid of width n becomes n rows as wide as the grid was tall |
| Batching.Layout | model.py:175-180 | the transpose of the view: `L div B` rows, each B wide |
| Batching.LayoutAt | model.py:179-180 | after the view and the transpose, row t, column j of the grid is item `j * n + t` of the data |
| Batching.StreamIsContiguous | model.py:179-180 | column j of the grid is the j-th contiguous run of n items |
| Batching.StreamsCoverPrefix | model.py:175-180 | the B streams, in order, are exactly the data without its last `L mod B` items |
| Batching.CutWindows | model.py:182-194 | the loop appends the window at each row of `range(0, n - 1, W)`, in order |
| Batching.Window | model.py:186-191 | a window has `min(W, n - 1 - i)` input rows |
| Batching.WindowCount | model.py:184 | there are `ceil((n - 1) / W)` windows when `n >= 2`, and none when `n <= 1` |
| Batching.BatchesFromCount | model.py:184 | after row i there are c windows, with `(c - 1) * W < n - 1 - i <= c * W` |
| Batching.WindowStarts | model.py:184 | window k starts at row `k * W`, below `n - 1` |
| Batching.BatchesFromAt | model.py:184 | window k after row i starts at row `i + k * W` |
| Batching.WindowShape | model.py:186-191 | a window has `1 <= seq_len <= W` rows; `x` is grid rows `i .. i + seq_len`; `y` is rows `i + 1 .. i + 1 + seq_len` flattened, `seq_len * B` items |
| Batching.TargetAt | model.py:189-191 | target `k * B + j` is grid row `i + k + 1`, column j, so it is the next input row's item for all rows but the last |
| Batching.WindowsNonEmpty | model.py:186 | every window has at least one input row |
| Batching.OnlyLastShort | model.py:186 | every window but the last has exactly W rows |
| Batching.InputsFrom | model.py:184-189 | the inputs of the windows from row i are rows `i .. n - 2`, once each and in order |
| Batching.TargetsFrom | model.py:184-191 | the targets of the windows from row i are rows `i + 1 .. n - 1`, flattened, once each and in order |
| Batching.InputsAndTargetsCover | model.py:184-192 | over all windows the inputs are grid rows `0 .. n - 2` and the targets rows `1 .. n - 1` flattened, each exactly once, in order |
| Batching.TokenTotal | model.py:184-191 | the windows hold `(n - 1) * B` targets in all, the final short window included |
| Batching.AlphabetLayout | model.py:151-158 | the alphabet as 4 streams is the 6 rows `agms` .. `flrx`, with `yz` dropped |
| Batching.AlphabetExample | model.py:159-172 | with B = 4 and W = 2 the alphabet gives three windows: the first has x = `agms`, `bhnt` and y = `bhntciou`, and the last is one row long |
| Model.RecurAppend | model.py:126 | running the cell over two blocks of rows one after the other is running it over their concatenation |
| Model.Recur | model.py:126 | the recurrent cell over a block of rows: `step` applied to one row at a time, in order, from the given state |
| Model.RecurLast | model.py:126 | the state the cell returns for a block is one step from its state after all rows but the last |
| Model.Detach | model.py:104 | `.detach()` drops the gradient history and keeps the value, so it is the identity on states |
| Model.RNNLM.constructor | model.py:42 | a new model stores no history |
| Model.RNNLM.ClearHiddenStates | model.py:93-95 | afterwards no history is stored |
| Model.RNNLM.SaveHiddenStates | model.py:97-104 | afterwards the detached given state is stored |
| Model.RNNLM.StartState | model.py:111-112 | the state a pass starts from: zeros of width `x.shape[1]` when no history is stored, the stored state otherwise |
| Model.RNNLM.Advance | model.py:111-129 | the stored history after one pass: the detached state of the cell after every row of the window |
| Model.RNNLM.WindowLosses | model.py:136-137 | one loss per target position |
| Model.RNNLM.Forward | model.py:106-137 | from no history the pass starts at zeros of width `x.shape[1]`, otherwise at the stored state; the cell's last state is stored; there is one loss per target |
| Model.RNNLM.ForwardTwice | model.py:111-129 | two passes with no clear in between give the cell's state after one run over both windows' rows |
| Model.RNNLM.GetBatches | model.py:139-194 | the result is the windows of the B-stream layout of the data |
| Model.RNNLM.Evaluate | model.py:254-272 | starts from no history whatever was stored before, passes over every window in order, counts exactly the targets, and leaves no history |
| Model.RNNLM.RunLossesCount | model.py:265-268 | chained forward passes yield one loss per target of every window |
| Model.RNNLM.ChainedRun | model.py:264-268 | after passes over all windows from no history, the stored state is one run of the cell over all input rows, from zeros of the first window's width |
| Model.RNNLM.TruncatedBptt | model.py:264-268 | over the windows of `get_batches` with `n >= 2`, the chained passes end in the state of one run from zeros of width B over grid rows `0 .. n - 2` |
| Model.RNNLM.EvaluatedTokens | model.py:265-268 | evaluating the windows of `get_batches` counts `(n - 1) * B` tokens, or 0 when the grid is empty |

## Left out

- The tensor math is not modelled: embedding, dropout, the RNN and GRU cells, the output layer, cross-entropy, `backward`, the optimiser and gradient clipping. These are foreign library calls and floating point. The cell is an abstract step function, the loss an abstract function, and `detach` the identity.
- Model.RNNLM.Evaluate: returns the per-token losses in order instead of their floating-point sum. The division `total_loss /= total_tokens` and `math.exp` are left out, because they are floating point. With them goes the `ZeroDivisionError` the source raises when the windows hold no target; `totalTokens` is 0 exactly then.
- `math` is never imported in model.py, so the perplexity lines cannot run as written. This is not modelled.
- Model.RNNLM.Forward: requires at least one input row, because the batch width is read from the first row (`x.shape[1]`). A window from `get_batches` always has one (`WindowsNonEmpty`). Evaluate inherits the same requirement for every window.
- Model.RNNLM.ForwardTwice: `step` is a fixed, deterministic cell. That matches `evaluate` (evaluation mode, `no_grad`, no parameter update between passes) but not training, where dropout (model.py:115) is random and `optimizer.step()` (model.py:227) changes the cell between passes; so this lemma, `ChainedRun` and `TruncatedBptt` describe evaluation passes only. The model's `Forward` also accepts a stored state of any batch width, where `nn.RNN` raises when it differs from `x.shape[1]`.
- Model.RNNLM.GetBatches: requires `batch_size > 0` and `bptt_steps > 0`, and both are naturals, so negative values are excluded too. These error paths and negative cases are not modelled:
  - a zero batch size makes the source raise `ZeroDivisionError` at model.py:175;
  - a negative batch size gives `view` a negative size at model.py:179-180;
  - a zero step makes `range` raise `ValueError` at model.py:184;
  - a negative `bptt_steps` makes `range(0, n - 1, bptt_steps)` at model.py:184 empty whenever n >= 1, so the source returns no windows.
- Model.RNNLM.SaveHiddenStates: models one state value; the tuple branch (model.py:100-102) is the LSTM state, which the source leaves unfinished.
- The LSTM branches of `__init__` and `init_state` (model.py:65-69, model.py:85-91) and `logits = "<TODO>"` (model.py:134) are unfinished stubs and are not modelled. For an unknown `rnn_type`, `__init__` raises nothing and `self.rnn` is never set.
- The other constructor parameters (embedding and hidden sizes, layer count, dropout, clipping norm) and the parameter count are not modelled; they only feed the tensor math.
- `readable_size` (model.py:11-23) is float formatting and is not modelled.
- `train_model` (model.py:196-252) is orchestration around the optimiser and is not modelled. Its clear before evaluating is part of Evaluate itself.
- `scores_to_tensor` (preprocessor.py:19-28) does not parse, and its result is never used. It is not modelled.
- main.py is not part of this model: argument parsing, seeding, file paths, device selection.
- File opening, UTF-8 decoding, `tqdm` progress bars, `torch.LongTensor` and CUDA placement are not modelled. The operations take and return sequences.
- `Vocabulary.__repr__` is not modelled; it is formatting only.
