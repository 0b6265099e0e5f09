/**
  The vocabulary of a corpus (vocabulary.py): a list of entries by index and the
  inverse table from entry to index, starting with four reserved entries and
  growing, in first-seen order, with every token of the training corpus.
 */
module Vocabulary {
  import opened Seqs
  import opened Tokens

  const PAD: string := "<pad>"
  const BOS: string := "<s>"
  const EOS: string := "</s>"
  const UNK: string := "<unk>"

  const PAD_IDX: nat := 0
  const BOS_IDX: nat := 1
  const EOS_IDX: nat := 2
  const UNK_IDX: nat := 3

  /** The entries every vocabulary starts with, at indices 0 to 3. */
  const RESERVED: seq<string> := [PAD, BOS, EOS, UNK]

  predicate Distinct(s: seq<string>)
  {
    forall i, j :: 0 <= i < j < |s| ==> s[i] != s[j]
  }

  /** The position of the first occurrence of `w` in `s`. */
  function IndexOf(s: seq<string>, w: string): (k: nat)
    requires w in s
    ensures k < |s| && s[k] == w && w !in s[..k]
  {
    if s[0] == w then 0
    else
      var k := IndexOf(s[1..], w) + 1;
      assert s[..k] == [s[0]] + s[1..][..k - 1];
      k
  }

  /** What `add_word` does to the entry list. */
  function Insert(entries: seq<string>, w: string): seq<string>
  {
    if w in entries then entries else entries + [w]
  }

  /** The entry list after `add_word` on each of `ws`, in order. */
  function InsertAll(entries: seq<string>, ws: seq<string>): seq<string>
    decreases |ws|
  {
    if ws == [] then entries else Insert(InsertAll(entries, ws[..|ws| - 1]), ws[|ws| - 1])
  }

  /** All whitespace tokens of all lines, line after line. */
  function CorpusTokens(lines: seq<string>): seq<string>
  {
    if lines == [] then [] else CorpusTokens(lines[..|lines| - 1]) + Split(lines[|lines| - 1])
  }

  lemma CorpusTokensSnoc(lines: seq<string>, i: nat)
    requires i < |lines|
    ensures CorpusTokens(lines[..i + 1]) == CorpusTokens(lines[..i]) + Split(lines[i])
  {
    assert lines[..i + 1][..i] == lines[..i];
  }

  /** Adding `a` then `b` is adding `a + b`. */
  lemma {:induction false} InsertAllAppend(entries: seq<string>, a: seq<string>, b: seq<string>)
    ensures InsertAll(entries, a + b) == InsertAll(InsertAll(entries, a), b)
    decreases |b|
  {
    if b == [] {
      assert a + b == a;
    } else {
      assert (a + b)[..|a + b| - 1] == a + b[..|b| - 1];
      InsertAllAppend(entries, a, b[..|b| - 1]);
    }
  }

  /**
    Inserting only appends: earlier entries keep their indices, the entries are
    exactly the old ones and the inserted words, and no entry appears twice.
   */
  lemma {:induction false} InsertAllGrows(entries: seq<string>, ws: seq<string>)
    ensures |entries| <= |InsertAll(entries, ws)|
    ensures InsertAll(entries, ws)[..|entries|] == entries
    ensures forall w :: w in InsertAll(entries, ws) <==> w in entries || w in ws
    ensures Distinct(entries) ==> Distinct(InsertAll(entries, ws))
    decreases |ws|
  {
    if ws != [] {
      var init, w := ws[..|ws| - 1], ws[|ws| - 1];
      InsertAllGrows(entries, init);
      assert ws == init + [w];
      var r := InsertAll(entries, init);
      if w !in r {
        assert (r + [w])[..|entries|] == r[..|entries|];
      }
    }
  }

  lemma {:induction false} IndexOfSnoc(s: seq<string>, y: string, x: string)
    requires x in s
    ensures IndexOf(s + [y], x) == IndexOf(s, x)
  {
    if s[0] != x {
      assert (s + [y])[1..] == s[1..] + [y];
      IndexOfSnoc(s[1..], y, x);
    }
  }

  /**
    Every entry added is a word of `ws` not there before, and the added entries
    stand in the order in which their words first occur in `ws`.
   */
  lemma {:induction false} InsertAllFirstSeen(entries: seq<string>, ws: seq<string>)
    ensures forall i :: |entries| <= i < |InsertAll(entries, ws)| ==>
      InsertAll(entries, ws)[i] in ws && InsertAll(entries, ws)[i] !in entries
    ensures forall i, j :: |entries| <= i < j < |InsertAll(entries, ws)| ==>
      IndexOf(ws, InsertAll(entries, ws)[i]) < IndexOf(ws, InsertAll(entries, ws)[j])
    decreases |ws|
  {
    if ws != [] {
      var init, w := ws[..|ws| - 1], ws[|ws| - 1];
      assert ws == init + [w];
      InsertAllFirstSeen(entries, init);
      InsertAllGrows(entries, init);
      var r0 := InsertAll(entries, init);
      var r := InsertAll(entries, ws);
      forall i | |entries| <= i < |r0|
        ensures IndexOf(ws, r0[i]) == IndexOf(init, r0[i])
      {
        IndexOfSnoc(init, w, r0[i]);
      }
      if w !in r0 {
        assert w !in init;
        var k := IndexOf(ws, w);
        assert k == |init| by {
          assert forall i :: 0 <= i < |init| ==> ws[i] == init[i];
        }
        forall i | |entries| <= i < |r0|
          ensures IndexOf(ws, r[i]) < IndexOf(ws, r[|r0|])
        {
          assert r[i] == r0[i];
        }
      }
    }
  }

  lemma {:induction false} DistinctCard(s: seq<string>)
    requires Distinct(s)
    ensures |set x | x in s| == |s|
  {
    if s != [] {
      DistinctCard(s[1..]);
      assert (set x | x in s) == {s[0]} + (set x | x in s[1..]);
      assert s[0] !in s[1..];
    }
  }

  /**
    A fresh vocabulary that adds the words `ws` ends with the four reserved
    entries plus one entry per distinct non-reserved word.
   */
  lemma FreshSize(ws: seq<string>)
    ensures |InsertAll(RESERVED, ws)| == |RESERVED| + |set w | w in ws && w !in RESERVED|
  {
    var r := InsertAll(RESERVED, ws);
    assert Distinct(RESERVED);
    InsertAllGrows(RESERVED, ws);
    DistinctCard(r);
    DistinctCard(RESERVED);
    var added := set w | w in ws && w !in RESERVED;
    assert (set x | x in r) == (set x | x in RESERVED) + added;
    assert (set x | x in RESERVED) !! added;
  }

  /** Adding words that are all present changes nothing. */
  lemma {:induction false} InsertAllPresent(entries: seq<string>, ws: seq<string>)
    requires forall w :: w in ws ==> w in entries
    ensures InsertAll(entries, ws) == entries
    decreases |ws|
  {
    if ws != [] {
      InsertAllPresent(entries, ws[..|ws| - 1]);
      assert ws[|ws| - 1] in ws;
    }
  }

  /** Building twice from the same words gives the same entries as building once. */
  lemma InsertAllIdempotent(entries: seq<string>, ws: seq<string>)
    ensures InsertAll(InsertAll(entries, ws), ws) == InsertAll(entries, ws)
  {
    InsertAllGrows(entries, ws);
    InsertAllPresent(InsertAll(entries, ws), ws);
  }

  /** The four reserved words are pairwise different. */
  lemma ReservedDistinct()
    ensures Distinct(RESERVED)
  {
    assert |PAD| == 5 && |BOS| == 3 && |EOS| == 4 && |UNK| == 5;
    assert PAD[1] == 'p' && UNK[1] == 'u';
  }

  lemma ReservedBijection()
    ensures Bijection(RESERVED, map[PAD := PAD_IDX, BOS := BOS_IDX, EOS := EOS_IDX, UNK := UNK_IDX])
  {
    ReservedDistinct();
  }

  /** `idx2word` and `_word2idx` are inverse bijections between the entries and `[0, |entries|)`. */
  ghost predicate Bijection(entries: seq<string>, table: map<string, nat>)
  {
    && (forall i :: 0 <= i < |entries| ==> entries[i] in table && table[entries[i]] == i)
    && (forall w :: w in table ==> table[w] < |entries| && entries[table[w]] == w)
  }

  /** Under the bijection the list has no duplicates and the table holds exactly the entries. */
  lemma BijectionFacts(entries: seq<string>, table: map<string, nat>)
    requires Bijection(entries, table)
    ensures Distinct(entries)
    ensures forall w :: w in table <==> w in entries
    ensures |table| == |entries|
  {
    assert table.Keys == set x | x in entries;
    DistinctCard(entries);
  }

  class Vocab {
    /** The entries by index (`idx2word`). */
    var idx2word: seq<string>
    /** The inverse table from entry to index (`_word2idx`). */
    var wordIndex: map<string, nat>
    /** The index that absent words map to (`_unk_idx`). */
    var unkIdx: nat

    ghost predicate Consistent()
      reads this
    {
      Bijection(idx2word, wordIndex)
    }

    ghost predicate Valid()
      reads this
    {
      && Consistent()
      && |idx2word| >= |RESERVED|
      && idx2word[..|RESERVED|] == RESERVED
      && unkIdx == UNK_IDX
    }

    /** A fresh vocabulary holds exactly the four reserved entries. */
    constructor ()
      ensures Valid()
      ensures idx2word == RESERVED
      ensures wordIndex == map[PAD := PAD_IDX, BOS := BOS_IDX, EOS := EOS_IDX, UNK := UNK_IDX]
      ensures unkIdx == UNK_IDX
    {
      idx2word := [];
      wordIndex := map[];
      unkIdx := 0;
      new;
      ReservedDistinct();
      AddWord(PAD);
      assert idx2word == [PAD];
      AddWord(BOS);
      assert idx2word == [PAD, BOS];
      AddWord(EOS);
      assert idx2word == [PAD, BOS, EOS];
      AddWord(UNK);
      assert idx2word == RESERVED;
      assert wordIndex == map[PAD := PAD_IDX, BOS := BOS_IDX, EOS := EOS_IDX, UNK := UNK_IDX];
      ReservedBijection();
      unkIdx := wordIndex[UNK];
    }

    /** The stored index of a known word, and `<unk>`'s index for any other; never changes the vocabulary. */
    function Word2Idx(word: string): (r: nat)
      reads this
      requires Valid()
      ensures r < |idx2word|
      ensures word in idx2word ==> idx2word[r] == word && r == IndexOf(idx2word, word)
      ensures word !in idx2word ==> r == UNK_IDX
    {
      BijectionFacts(idx2word, wordIndex);
      if word in wordIndex then wordIndex[word] else unkIdx
    }

    /** `add_word`: a word already present changes nothing; a new one is appended and mapped to the old size. */
    method AddWord(word: string)
      requires Consistent()
      modifies this
      ensures Consistent()
      ensures idx2word == Insert(old(idx2word), word)
      ensures wordIndex == if word in old(wordIndex) then old(wordIndex)
                           else old(wordIndex)[word := |old(idx2word)|]
      ensures unkIdx == old(unkIdx)
      ensures old(idx2word) <= idx2word
      ensures old(Valid()) ==> Valid()
    {
      BijectionFacts(idx2word, wordIndex);
      if word !in wordIndex {
        idx2word := idx2word + [word];
        wordIndex := wordIndex[word := |idx2word| - 1];
      }
    }

    /** `build_from_file`, fed the file's lines: adds every token of every stripped line, in order. */
    method BuildFromLines(lines: seq<string>)
      requires Valid()
      modifies this
      ensures Valid()
      ensures idx2word == InsertAll(old(idx2word), CorpusTokens(lines))
    {
      ghost var start := idx2word;
      for li := 0 to |lines|
        invariant Valid()
        invariant idx2word == InsertAll(start, CorpusTokens(lines[..li]))
      {
        var words := Split(Strip(lines[li]));
        ghost var mid := idx2word;
        for wi := 0 to |words|
          invariant Valid()
          invariant idx2word == InsertAll(mid, words[..wi])
        {
          assert words[..wi + 1][..wi] == words[..wi];
          AddWord(words[wi]);
        }
        SplitStrip(lines[li]);
        CorpusTokensSnoc(lines, li);
        assert words[..|words|] == words;
        InsertAllAppend(start, CorpusTokens(lines[..li]), words);
      }
      assert lines[..|lines|] == lines;
    }

    /** Python's `idx2word[idx]`: a negative index counts from the end. */
    function Entry(idx: int): (w: string)
      reads this
      requires -|idx2word| <= idx < |idx2word|
      ensures w in idx2word
      ensures w == idx2word[idx % |idx2word|]
    {
      if idx >= 0 then idx2word[idx] else idx2word[|idx2word| + idx]
    }

    function IdxsToWords(idxs: seq<int>): (ws: seq<string>)
      reads this
      requires forall k :: 0 <= k < |idxs| ==> -|idx2word| <= idxs[k] < |idx2word|
      ensures |ws| == |idxs|
      ensures forall k :: 0 <= k < |idxs| ==> ws[k] == Entry(idxs[k])
    {
      if idxs == [] then [] else [Entry(idxs[0])] + IdxsToWords(idxs[1..])
    }

    /**
      `convert_idxs_to_words`: the entries named by `idxs`, joined by single
      spaces; when those entries are tokens, splitting the text gives them back.
      An index outside `[-len, len)` raises in the source, hence the precondition.
     */
    function ConvertIdxsToWords(idxs: seq<int>): (text: string)
      reads this
      requires forall k :: 0 <= k < |idxs| ==> -|idx2word| <= idxs[k] < |idx2word|
      ensures (forall k :: 0 <= k < |idxs| ==> IsToken(Entry(idxs[k]))) ==>
        |Split(text)| == |idxs| && forall k :: 0 <= k < |idxs| ==> Split(text)[k] == Entry(idxs[k])
    {
      var ws := IdxsToWords(idxs);
      if forall k :: 0 <= k < |idxs| ==> IsToken(Entry(idxs[k])) then
        SplitJoin(ws);
        Join(ws)
      else
        Join(ws)
    }

    /**
      `convert_words_to_idxs`: one index per word, each within the vocabulary:
      the word's own entry when present, `<unk>` otherwise.
     */
    function ConvertWordsToIdxs(words: seq<string>): (r: seq<nat>)
      reads this
      requires Valid()
      ensures |r| == |words|
      ensures forall i :: 0 <= i < |r| ==> r[i] == Word2Idx(words[i]) && r[i] < |idx2word|
      ensures forall i :: 0 <= i < |r| ==> words[i] in idx2word ==> idx2word[r[i]] == words[i]
      ensures forall i :: 0 <= i < |r| ==> words[i] !in idx2word ==> r[i] == UNK_IDX
    {
      if words == [] then [] else [Word2Idx(words[0])] + ConvertWordsToIdxs(words[1..])
    }

    /** `__len__`: the number of entries, which is also the number of keys of the inverse table. */
    function Length(): (n: nat)
      reads this
      requires Valid()
      ensures n == |idx2word| && n == |wordIndex|
      ensures n >= |RESERVED|
    {
      BijectionFacts(idx2word, wordIndex);
      |idx2word|
    }

    /** The reserved entries keep their fixed indices. */
    lemma ReservedIndices()
      requires Valid()
      ensures Word2Idx(PAD) == PAD_IDX && Word2Idx(BOS) == BOS_IDX
      ensures Word2Idx(EOS) == EOS_IDX && Word2Idx(UNK) == UNK_IDX
    {
      assert idx2word[0] == PAD && idx2word[1] == BOS && idx2word[2] == EOS && idx2word[3] == UNK by {
        assert idx2word[..|RESERVED|][0] == idx2word[0];
        assert idx2word[..|RESERVED|][1] == idx2word[1];
        assert idx2word[..|RESERVED|][2] == idx2word[2];
        assert idx2word[..|RESERVED|][3] == idx2word[3];
      }
    }

    /** Converting any words gives the lookups of the parts, concatenated. */
    lemma ConvertAppend(a: seq<string>, b: seq<string>)
      requires Valid()
      ensures ConvertWordsToIdxs(a + b) == ConvertWordsToIdxs(a) + ConvertWordsToIdxs(b)
    {
      var l, r := ConvertWordsToIdxs(a + b), ConvertWordsToIdxs(a) + ConvertWordsToIdxs(b);
      forall i | 0 <= i < |l| ensures l[i] == r[i] {
        if i < |a| { assert (a + b)[i] == a[i]; } else { assert (a + b)[i] == b[i - |a|]; }
      }
    }

    /** Words that are all in the vocabulary come back from their indices, space-joined. */
    lemma RoundTrip(words: seq<string>)
      requires Valid()
      requires forall i :: 0 <= i < |words| ==> words[i] in idx2word
      ensures ConvertIdxsToWords(ConvertWordsToIdxs(words)) == Join(words)
    {
      var idxs := ConvertWordsToIdxs(words);
      var ws := IdxsToWords(idxs);
      forall i | 0 <= i < |words| ensures ws[i] == words[i] {
        assert ws[i] == Entry(idxs[i]);
      }
      assert ws == words;
    }
  }
}
