/**
  Whitespace handling of Python's `str.strip()`, `str.split()` (both called
  without arguments) and `' '.join(...)`, which the vocabulary and the corpus
  encoder use to cut a line into tokens.
 */
module Tokens {
  import opened Seqs

  /** The characters `str.isspace()` accepts, which `split()` and `strip()` treat as whitespace. */
  predicate IsSpace(c: char)
  {
    || ('\t' <= c <= '\r')
    || ('\U{1C}' <= c <= '\U{1F}')
    || c == ' '
    || c == '\U{85}'
    || c == '\U{A0}'
    || c == '\U{1680}'
    || ('\U{2000}' <= c <= '\U{200A}')
    || c == '\U{2028}'
    || c == '\U{2029}'
    || c == '\U{202F}'
    || c == '\U{205F}'
    || c == '\U{3000}'
  }

  predicate AllSpace(s: string)
  {
    forall k :: 0 <= k < |s| ==> IsSpace(s[k])
  }

  predicate NoSpace(s: string)
  {
    forall k :: 0 <= k < |s| ==> !IsSpace(s[k])
  }

  /** A token as whitespace splitting produces it: non-empty and free of whitespace. */
  predicate IsToken(w: string)
  {
    w != [] && NoSpace(w)
  }

  /** The characters of `s` that are not whitespace, in order. */
  function NonSpace(s: string): string
  {
    if s == [] then [] else (if IsSpace(s[0]) then [] else [s[0]]) + NonSpace(s[1..])
  }

  /** The number of whitespace characters `s` starts with. */
  function LeadingSpace(s: string): (n: nat)
    ensures n <= |s|
  {
    if s != [] && IsSpace(s[0]) then 1 + LeadingSpace(s[1..]) else 0
  }

  /** The leading run is all whitespace and stops at the end or at a non-whitespace character. */
  lemma {:induction false} LeadingSpaceRun(s: string)
    ensures AllSpace(s[..LeadingSpace(s)])
    ensures LeadingSpace(s) == |s| || !IsSpace(s[LeadingSpace(s)])
  {
    if s != [] && IsSpace(s[0]) {
      var t := s[1..];
      LeadingSpaceRun(t);
      var n := LeadingSpace(t);
      assert t[n..] == s[n + 1..];
      forall k | 0 <= k < n + 1 ensures IsSpace(s[k]) {
        if k > 0 {
          assert s[k] == t[..n][k - 1];
        }
      }
    }
  }

  /** The length of `s` once its trailing whitespace is gone. */
  function TrimmedLength(s: string): (n: nat)
    ensures n <= |s|
  {
    if s != [] && IsSpace(s[|s| - 1]) then TrimmedLength(s[..|s| - 1]) else |s|
  }

  /** What follows the kept part is all whitespace, and the kept part is empty or ends in non-whitespace. */
  lemma {:induction false} TrailingSpaceRun(s: string)
    ensures AllSpace(s[TrimmedLength(s)..])
    ensures TrimmedLength(s) == 0 || !IsSpace(s[TrimmedLength(s) - 1])
  {
    if s != [] && IsSpace(s[|s| - 1]) {
      var t := s[..|s| - 1];
      TrailingSpaceRun(t);
      var n := TrimmedLength(t);
      assert t[..n] == s[..n];
      forall k | n <= k < |s| ensures IsSpace(s[k]) {
        if k < |s| - 1 {
          assert s[k] == t[n..][k - n];
        }
      }
    }
  }

  /** `s.lstrip()`: the suffix of `s` left once its leading whitespace is gone. */
  function TrimLeft(s: string): (r: string)
    ensures |r| <= |s| && r == s[|s| - |r|..]
    ensures AllSpace(s[..|s| - |r|])
    ensures r == [] || !IsSpace(r[0])
  {
    LeadingSpaceRun(s);
    s[LeadingSpace(s)..]
  }

  /** `s.rstrip()`: the prefix of `s` left once its trailing whitespace is gone. */
  function TrimRight(s: string): (r: string)
    ensures |r| <= |s| && r == s[..|r|]
    ensures AllSpace(s[|r|..])
    ensures r == [] || !IsSpace(r[|r| - 1])
  {
    TrailingSpaceRun(s);
    s[..TrimmedLength(s)]
  }

  /**
    The tokens of `s` when `word` is the (possibly empty) token read just before
    `s` begins: every run of non-whitespace becomes one token, in order.
   */
  function SplitFrom(s: string, word: string): seq<string>
    decreases |s|
  {
    if s == [] then
      if word == [] then [] else [word]
    else if IsSpace(s[0]) then
      (if word == [] then [] else [word]) + SplitFrom(s[1..], [])
    else
      SplitFrom(s[1..], word + [s[0]])
  }

  lemma {:induction false} SplitFromTokens(s: string, word: string)
    requires NoSpace(word)
    ensures forall k :: 0 <= k < |SplitFrom(s, word)| ==> IsToken(SplitFrom(s, word)[k])
    decreases |s|
  {
    if s != [] {
      if IsSpace(s[0]) {
        SplitFromTokens(s[1..], []);
      } else {
        assert NoSpace(word + [s[0]]) by {
          forall k | 0 <= k < |word| + 1 ensures !IsSpace((word + [s[0]])[k]) {
            if k < |word| {
              assert (word + [s[0]])[k] == word[k];
            }
          }
        }
        SplitFromTokens(s[1..], word + [s[0]]);
      }
    }
  }

  lemma {:induction false} SplitFromChars(s: string, word: string)
    ensures Concat(SplitFrom(s, word)) == word + NonSpace(s)
    decreases |s|
  {
    if s == [] {
      if word != [] {
        assert Concat([word]) == word + Concat([word][1..]);
      }
    } else if IsSpace(s[0]) {
      var pre: seq<string> := if word == [] then [] else [word];
      var rest := SplitFrom(s[1..], []);
      SplitFromChars(s[1..], []);
      ConcatAppend(pre, rest);
      assert Concat(pre) == word by {
        if word != [] {
          assert Concat(pre) == word + Concat(pre[1..]);
        }
      }
    } else {
      SplitFromChars(s[1..], word + [s[0]]);
      AppendAssoc(word, [s[0]], NonSpace(s[1..]));
    }
  }

  /** `s.split()`: tokens with no whitespace, which together hold every non-whitespace character of `s`. */
  function Split(s: string): (r: seq<string>)
    ensures forall k :: 0 <= k < |r| ==> IsToken(r[k])
    ensures Concat(r) == NonSpace(s)
  {
    SplitFromTokens(s, []);
    SplitFromChars(s, []);
    SplitFrom(s, [])
  }

  /** `' '.join(ws)`: the words with exactly one space between neighbours. */
  function Join(ws: seq<string>): (r: string)
    ensures ws != [] ==> |r| == |Concat(ws)| + |ws| - 1
  {
    if ws == [] then "" else if |ws| == 1 then ws[0] else ws[0] + " " + Join(ws[1..])
  }

  /** Trailing whitespace ends the pending token and adds nothing else. */
  lemma {:induction false} SplitFromTrailingSpace(a: string, b: string, word: string)
    requires AllSpace(b)
    ensures SplitFrom(a + b, word) == SplitFrom(a, word)
    decreases |a| + |b|
  {
    if a == [] {
      assert a + b == b;
      if b != [] {
        SplitFromTrailingSpace([], b[1..], []);
        assert [] + b[1..] == b[1..];
      }
    } else {
      assert (a + b)[1..] == a[1..] + b;
      if IsSpace(a[0]) {
        SplitFromTrailingSpace(a[1..], b, []);
      } else {
        SplitFromTrailingSpace(a[1..], b, word + [a[0]]);
      }
    }
  }

  lemma {:induction false} SplitFromAllSpace(s: string)
    requires AllSpace(s)
    ensures SplitFrom(s, []) == []
  {
    SplitFromTrailingSpace([], s, []);
    assert [] + s == s;
  }

  /** One whitespace character separates the tokens before it from those after it. */
  lemma {:induction false} SplitFromSeparated(a: string, c: char, b: string, word: string)
    requires IsSpace(c)
    ensures SplitFrom(a + [c] + b, word) == SplitFrom(a, word) + Split(b)
    decreases |a|
  {
    if a == [] {
      assert a + [c] + b == [c] + b;
      assert ([c] + b)[1..] == b;
    } else {
      assert (a + [c] + b)[1..] == a[1..] + [c] + b;
      if IsSpace(a[0]) {
        SplitFromSeparated(a[1..], c, b, []);
        var pre := if word == [] then [] else [word];
        assert pre + (SplitFrom(a[1..], []) + Split(b)) == (pre + SplitFrom(a[1..], [])) + Split(b);
      } else {
        SplitFromSeparated(a[1..], c, b, word + [a[0]]);
      }
    }
  }

  lemma {:induction false} SplitFromWord(a: string, word: string)
    requires NoSpace(a) && word + a != []
    ensures SplitFrom(a, word) == [word + a]
    decreases |a|
  {
    if a == [] {
      assert word + a == word;
    } else {
      assert !IsSpace(a[0]);
      assert (word + [a[0]]) + a[1..] == word + a;
      SplitFromWord(a[1..], word + [a[0]]);
    }
  }

  /** A token splits to itself. */
  lemma SplitToken(w: string)
    requires IsToken(w)
    ensures Split(w) == [w]
  {
    SplitFromWord(w, []);
    assert [] + w == w;
  }

  /** A whitespace character ends one token run and starts the next: `split()` breaks there and nowhere inside a run. */
  lemma SplitSeparated(a: string, c: char, b: string)
    requires IsSpace(c)
    ensures Split(a + [c] + b) == Split(a) + Split(b)
  {
    SplitFromSeparated(a, c, b, []);
  }

  /** A line has no tokens exactly when it is all whitespace. */
  lemma {:induction false} SplitEmpty(s: string)
    ensures Split(s) == [] <==> AllSpace(s)
  {
    if AllSpace(s) {
      SplitFromAllSpace(s);
    } else {
      var k :| 0 <= k < |s| && !IsSpace(s[k]);
      NonSpaceHas(s, k);
    }
  }

  lemma {:induction false} NonSpaceHas(s: string, k: nat)
    requires k < |s| && !IsSpace(s[k])
    ensures NonSpace(s) != []
  {
    if k > 0 {
      NonSpaceHas(s[1..], k - 1);
    }
  }

  /** Leading whitespace adds no token. */
  lemma {:induction false} SplitLeadingSpace(a: string, b: string)
    requires AllSpace(a)
    ensures Split(a + b) == Split(b)
    decreases |a|
  {
    if a != [] {
      assert (a + b)[1..] == a[1..] + b;
      SplitLeadingSpace(a[1..], b);
    } else {
      assert a + b == b;
    }
  }

  lemma SplitTrimLeft(s: string)
    ensures Split(TrimLeft(s)) == Split(s)
  {
    var l := TrimLeft(s);
    var p := s[..|s| - |l|];
    assert s == p + l;
    SplitLeadingSpace(p, l);
  }

  lemma SplitTrimRight(s: string)
    ensures Split(TrimRight(s)) == Split(s)
  {
    var r := TrimRight(s);
    var q := s[|r|..];
    assert s == r + q;
    SplitFromTrailingSpace(r, q, []);
  }

  /** `s.strip()`: empty exactly when `s` is all whitespace, and otherwise bounded by non-whitespace. */
  function Strip(s: string): (r: string)
    ensures r == [] <==> AllSpace(s)
    ensures r != [] ==> !IsSpace(r[0]) && !IsSpace(r[|r| - 1])
    ensures exists a :: 0 <= a && a + |r| <= |s| && r == s[a..a + |r|] && AllSpace(s[..a]) && AllSpace(s[a + |r|..])
  {
    StripEmpty(s);
    StripEnds(s);
    StripMiddle(s);
    TrimRight(TrimLeft(s))
  }

  /** What the strip keeps is a middle piece of the line, with only whitespace cut off on either side. */
  lemma StripMiddle(s: string)
    ensures var r := TrimRight(TrimLeft(s));
      exists a :: 0 <= a && a + |r| <= |s| && r == s[a..a + |r|] && AllSpace(s[..a]) && AllSpace(s[a + |r|..])
  {
    var l := TrimLeft(s);
    var r := TrimRight(l);
    var a := |s| - |l|;
    assert l == s[a..];
    assert r == l[..|r|] && AllSpace(l[|r|..]);
    assert s[a..a + |r|] == l[..|r|];
    assert s[a + |r|..] == l[|r|..];
  }

  lemma StripEmpty(s: string)
    ensures TrimRight(TrimLeft(s)) == [] <==> AllSpace(s)
  {
    TrimLeftNonEmpty(s);
    var l := TrimLeft(s);
    if TrimRight(l) == [] {
      RightAllSpace(l);
      LeftAllSpace(s);
    }
  }

  lemma TrimLeftNonEmpty(s: string)
    ensures TrimLeft(s) != [] ==> !AllSpace(s)
  {
    var l := TrimLeft(s);
    if l != [] {
      assert s[|s| - |l|] == l[0];
    }
  }

  lemma LeftAllSpace(s: string)
    requires AllSpace(TrimLeft(s))
    ensures AllSpace(s)
  {
    AllSpaceSplit(s, |s| - |TrimLeft(s)|);
  }

  lemma RightAllSpace(l: string)
    requires TrimRight(l) == []
    ensures AllSpace(l)
  {
    assert l[|TrimRight(l)|..] == l;
  }

  lemma AllSpaceSplit(s: string, n: nat)
    requires n <= |s| && AllSpace(s[..n]) && AllSpace(s[n..])
    ensures AllSpace(s)
  {
    forall k | 0 <= k < |s| ensures IsSpace(s[k]) {
      if k < n {
        assert s[..n][k] == s[k];
      } else {
        assert s[n..][k - n] == s[k];
      }
    }
  }

  lemma StripEnds(s: string)
    ensures var r := TrimRight(TrimLeft(s)); r != [] ==> !IsSpace(r[0]) && !IsSpace(r[|r| - 1])
  {
    TrimRightEnds(TrimLeft(s));
  }

  lemma TrimRightEnds(l: string)
    requires l == [] || !IsSpace(l[0])
    ensures var r := TrimRight(l); r != [] ==> !IsSpace(r[0]) && !IsSpace(r[|r| - 1])
  {
    var r := TrimRight(l);
    if r != [] {
      assert l[0] == r[0];
    }
  }

  /** `line.strip().split()` and `line.split()` give the same tokens. */
  lemma SplitStrip(s: string)
    ensures Split(Strip(s)) == Split(s)
  {
    assert Strip(s) == TrimRight(TrimLeft(s));
    SplitTrimRight(TrimLeft(s));
    SplitTrimLeft(s);
  }

  /** `f"{a} {s} {b}".split()` for tokens `a` and `b`, the way the encoder adds sentence markers. */
  lemma SplitWrapped(a: string, s: string, b: string)
    requires IsToken(a) && IsToken(b)
    ensures Split(a + " " + s + " " + b) == [a] + Split(s) + [b]
  {
    assert a + " " + s + " " + b == a + [' '] + (s + [' '] + b);
    SplitFromSeparated(a, ' ', s + [' '] + b, []);
    SplitFromSeparated(s, ' ', b, []);
    SplitToken(a);
    SplitToken(b);
  }

  /** Splitting the space-joined tokens gives the tokens back. */
  lemma {:induction false} SplitJoin(ws: seq<string>)
    requires forall k :: 0 <= k < |ws| ==> IsToken(ws[k])
    ensures Split(Join(ws)) == ws
  {
    if ws == [] {
    } else if |ws| == 1 {
      SplitToken(ws[0]);
    } else {
      SplitJoin(ws[1..]);
      SplitFromSeparated(ws[0], ' ', Join(ws[1..]), []);
      assert ws[0] + " " + Join(ws[1..]) == ws[0] + [' '] + Join(ws[1..]);
      SplitToken(ws[0]);
      assert ws == [ws[0]] + ws[1..];
    }
  }
}
