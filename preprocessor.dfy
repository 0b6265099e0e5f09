/**
  The corpus encoder (`corpus_to_tensor` in preprocessor.py): the lines of a
  text file become one flat sequence of vocabulary indices, each non-blank line
  wrapped in the sentence markers `<s>` and `</s>`.
 */
module Preprocessor {
  import opened Seqs
  import opened Tokens
  import opened Vocabulary

  /** The tokens a line stands for in the encoding: none for a blank line, else the line's tokens between the markers. */
  function MarkedLine(line: string): seq<string>
  {
    if Split(line) == [] then [] else [BOS] + Split(line) + [EOS]
  }

  /** The marked tokens of all lines, in line order. */
  function MarkedCorpus(lines: seq<string>): seq<string>
  {
    if lines == [] then [] else MarkedCorpus(lines[..|lines| - 1]) + MarkedLine(lines[|lines| - 1])
  }

  /** The indices one line contributes: `[1] + lookups of its tokens + [2]`, or nothing when blank. */
  function LineIdxs(v: Vocab, line: string): seq<nat>
    reads v
    requires v.Valid()
  {
    if Split(line) == [] then [] else [BOS_IDX] + v.ConvertWordsToIdxs(Split(line)) + [EOS_IDX]
  }

  /** The contributions of all lines, concatenated in line order. */
  function Encoding(v: Vocab, lines: seq<string>): seq<nat>
    reads v
    requires v.Valid()
  {
    if lines == [] then [] else Encoding(v, lines[..|lines| - 1]) + LineIdxs(v, lines[|lines| - 1])
  }

  /** The number of indices the lines produce: tokens plus two markers for every non-blank line. */
  function MarkedCount(lines: seq<string>): nat
  {
    if lines == [] then 0
    else MarkedCount(lines[..|lines| - 1]) + (if Split(lines[|lines| - 1]) == [] then 0 else |Split(lines[|lines| - 1])| + 2)
  }

  /**
    One step of `corpus_to_tensor`: the line is stripped, skipped when empty, and
    otherwise wrapped as `f"<s> {line} </s>"`, split and looked up.
    This gives exactly the line's contribution.
   */
  lemma LineStep(v: Vocab, line: string)
    requires v.Valid()
    ensures Strip(line) == [] ==> LineIdxs(v, line) == []
    ensures Strip(line) != [] ==> LineIdxs(v, line) == v.ConvertWordsToIdxs(Split(BOS + " " + Strip(line) + " " + EOS))
  {
    SplitEmpty(line);
    if Strip(line) != [] {
      MarkedSplit(line);
      MarkedLookup(v, Split(line));
    }
  }

  /** Wrapping the stripped line in the markers adds exactly the two marker tokens around its tokens. */
  lemma MarkedSplit(line: string)
    ensures Split(BOS + " " + Strip(line) + " " + EOS) == [BOS] + Split(line) + [EOS]
  {
    SplitStrip(line);
    MarkersAreTokens();
    SplitWrapped(BOS, Strip(line), EOS);
  }

  lemma MarkersAreTokens()
    ensures IsToken(BOS) && IsToken(EOS)
  {
    assert !IsSpace('<') && !IsSpace('s') && !IsSpace('>') && !IsSpace('/');
  }

  /** The markers are looked up as indices 1 and 2. */
  lemma MarkedLookup(v: Vocab, toks: seq<string>)
    requires v.Valid()
    ensures v.ConvertWordsToIdxs([BOS] + toks + [EOS]) == [BOS_IDX] + v.ConvertWordsToIdxs(toks) + [EOS_IDX]
  {
    v.ConvertAppend([BOS] + toks, [EOS]);
    v.ConvertAppend([BOS], toks);
    v.ReservedIndices();
  }

  /** `corpus_to_tensor`, fed the file's lines; it reads the vocabulary and never changes it. */
  method CorpusToIdxs(vocab: Vocab, lines: seq<string>) returns (idxs: seq<nat>)
    requires vocab.Valid()
    ensures idxs == Encoding(vocab, lines)
  {
    idxs := [];
    for i := 0 to |lines|
      invariant idxs == Encoding(vocab, lines[..i])
    {
      EncodingPrefix(vocab, lines, i);
      LineStep(vocab, lines[i]);
      var line := Strip(lines[i]);
      if line != [] {
        var marked := BOS + " " + line + " " + EOS;
        idxs := idxs + vocab.ConvertWordsToIdxs(Split(marked));
      }
    }
    assert lines[..|lines|] == lines;
  }

  lemma EncodingPrefix(v: Vocab, lines: seq<string>, i: nat)
    requires v.Valid() && i < |lines|
    ensures Encoding(v, lines[..i + 1]) == Encoding(v, lines[..i]) + LineIdxs(v, lines[i])
  {
    assert lines[..i + 1][..i] == lines[..i];
  }

  lemma EncodingSnoc(v: Vocab, lines: seq<string>)
    requires v.Valid() && lines != []
    ensures Encoding(v, lines) == Encoding(v, lines[..|lines| - 1]) + LineIdxs(v, lines[|lines| - 1])
  {
  }

  /** The encoding of two files one after the other is the two encodings concatenated. */
  lemma {:induction false} EncodingAppend(v: Vocab, a: seq<string>, b: seq<string>)
    requires v.Valid()
    ensures Encoding(v, a + b) == Encoding(v, a) + Encoding(v, b)
    decreases |b|
  {
    if b == [] {
      assert a + b == a;
    } else {
      var ab, b0, last := a + b, b[..|b| - 1], b[|b| - 1];
      assert ab[..|ab| - 1] == a + b0;
      assert ab[|ab| - 1] == last;
      EncodingSnoc(v, ab);
      EncodingSnoc(v, b);
      EncodingAppend(v, a, b0);
      var eab, eab0, ea, eb, eb0, l := Encoding(v, ab), Encoding(v, a + b0), Encoding(v, a),
        Encoding(v, b), Encoding(v, b0), LineIdxs(v, last);
      AppendAssoc(ea, eb0, l);
    }
  }

  /** The output has one index per token of every non-blank line, plus two markers per such line. */
  lemma {:induction false} EncodingLength(v: Vocab, lines: seq<string>)
    requires v.Valid()
    ensures |Encoding(v, lines)| == MarkedCount(lines)
  {
    if lines != [] {
      EncodingLength(v, lines[..|lines| - 1]);
    }
  }

  /** The encoding is the lookup, token by token, of the marked corpus. */
  lemma {:induction false} EncodingIsLookup(v: Vocab, lines: seq<string>)
    requires v.Valid()
    ensures Encoding(v, lines) == v.ConvertWordsToIdxs(MarkedCorpus(lines))
  {
    if lines != [] {
      var init, last := lines[..|lines| - 1], lines[|lines| - 1];
      EncodingIsLookup(v, init);
      v.ConvertAppend(MarkedCorpus(init), MarkedLine(last));
      if Split(last) != [] {
        MarkedLookup(v, Split(last));
      }
    }
  }

  /**
    Every index lies in `[0, len(vocab))`, and a token the vocabulary does not
    hold is encoded as `<unk>`.
   */
  lemma EncodingInRange(v: Vocab, lines: seq<string>)
    requires v.Valid()
    ensures |Encoding(v, lines)| == |MarkedCorpus(lines)|
    ensures forall k :: 0 <= k < |Encoding(v, lines)| ==> Encoding(v, lines)[k] < v.Length()
    ensures forall k :: 0 <= k < |Encoding(v, lines)| ==>
      MarkedCorpus(lines)[k] !in v.idx2word ==> Encoding(v, lines)[k] == UNK_IDX
  {
    EncodingIsLookup(v, lines);
  }

  /** The marked corpus holds the markers and the corpus tokens, all of them tokens. */
  lemma {:induction false} MarkedCorpusWords(lines: seq<string>)
    ensures forall k :: 0 <= k < |MarkedCorpus(lines)| ==>
      IsToken(MarkedCorpus(lines)[k]) &&
      (MarkedCorpus(lines)[k] in CorpusTokens(lines) || MarkedCorpus(lines)[k] in [BOS, EOS])
  {
    if lines != [] {
      var init, last := lines[..|lines| - 1], lines[|lines| - 1];
      MarkedCorpusWords(init);
      var m0, m1 := MarkedCorpus(init), MarkedLine(last);
      assert IsToken(BOS) && IsToken(EOS);
      forall k | 0 <= k < |m0 + m1|
        ensures IsToken((m0 + m1)[k]) && ((m0 + m1)[k] in CorpusTokens(lines) || (m0 + m1)[k] in [BOS, EOS])
      {
        if k >= |m0| {
          assert (m0 + m1)[k] == m1[k - |m0|];
        } else {
          assert (m0 + m1)[k] == m0[k];
        }
      }
    }
  }

  /**
    When every token of the corpus is in the vocabulary (as when the vocabulary
    was built from the same file), decoding the encoding gives the marked
    corpus back: joined by spaces, and token for token once split.
   */
  lemma DecodeRoundTrip(v: Vocab, lines: seq<string>)
    requires v.Valid()
    requires forall t :: t in CorpusTokens(lines) ==> t in v.idx2word
    ensures forall k :: 0 <= k < |Encoding(v, lines)| ==> Encoding(v, lines)[k] < |v.idx2word|
    ensures v.ConvertIdxsToWords(Encoding(v, lines)) == Join(MarkedCorpus(lines))
    ensures Split(v.ConvertIdxsToWords(Encoding(v, lines))) == MarkedCorpus(lines)
  {
    EncodingInRange(v, lines);
    var m := MarkedCorpus(lines);
    MarkedCovered(v, lines);
    EncodingIsLookup(v, lines);
    v.RoundTrip(m);
    MarkedCorpusWords(lines);
    SplitJoin(m);
  }

  lemma MarkedCovered(v: Vocab, lines: seq<string>)
    requires v.Valid()
    requires forall t :: t in CorpusTokens(lines) ==> t in v.idx2word
    ensures forall k :: 0 <= k < |MarkedCorpus(lines)| ==> MarkedCorpus(lines)[k] in v.idx2word
  {
    var m := MarkedCorpus(lines);
    MarkedCorpusWords(lines);
    assert BOS in v.idx2word && EOS in v.idx2word by {
      assert v.idx2word[..|RESERVED|][1] == v.idx2word[1];
      assert v.idx2word[..|RESERVED|][2] == v.idx2word[2];
    }
  }

  /** A vocabulary built from the lines covers them, so the round trip above applies. */
  lemma BuiltCovers(v: Vocab, base: seq<string>, lines: seq<string>)
    requires v.Valid() && v.idx2word == InsertAll(base, CorpusTokens(lines))
    ensures forall k :: 0 <= k < |Encoding(v, lines)| ==> Encoding(v, lines)[k] < |v.idx2word|
    ensures Split(v.ConvertIdxsToWords(Encoding(v, lines))) == MarkedCorpus(lines)
  {
    InsertAllGrows(base, CorpusTokens(lines));
    DecodeRoundTrip(v, lines);
  }
}
