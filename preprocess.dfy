/** The token filter of `preprocess_text`: the tokenizer's output (taken as a
    parameter) loses every stopword and every token that occurs inside the
    punctuation string. */
module Preprocess {
  import opened Common
  import opened Seqs

  /** Python's `string.punctuation`. */
  const Punctuation: string := "!\"#$%&'()*+,-./:;<=>?@[\\]^_`{|}~"

  /** Python's `t in p` on two strings: `t` occurs as a contiguous block of
      `p`. The empty string occurs in every string. */
  predicate IsSubstring(t: string, p: string) {
    exists i :: 0 <= i <= |p| - |t| && OccursAt(t, p, i)
  }

  /** `t` occurs in `p` starting at position `i`. */
  predicate OccursAt(t: string, p: string, i: int) {
    0 <= i && i + |t| <= |p| && p[i..i + |t|] == t
  }

  /** The condition of the list comprehension: not a stopword, and not a
      substring of the punctuation string. */
  predicate Kept(token: Token, stopWords: set<Token>, punctuation: string) {
    token !in stopWords && !IsSubstring(token, punctuation)
  }

  /** `preprocess_text` after tokenization: keep the tokens that pass `Kept`, in order. */
  function PreprocessText(tokens: seq<Token>, stopWords: set<Token>, punctuation: string): (r: seq<Token>)
    ensures |r| <= |tokens|
    ensures forall i :: 0 <= i < |r| ==> Kept(r[i], stopWords, punctuation)
  {
    if tokens == [] then []
    else
      (if Kept(tokens[0], stopWords, punctuation) then [tokens[0]] else [])
      + PreprocessText(tokens[1..], stopWords, punctuation)
  }

  /** The filtered tokens are the input with some tokens deleted, order kept. */
  lemma {:induction false} PreprocessIsSubsequence(tokens: seq<Token>, stopWords: set<Token>, punctuation: string)
    ensures IsSubsequence(PreprocessText(tokens, stopWords, punctuation), tokens)
  {
    if tokens != [] {
      var rest := PreprocessText(tokens[1..], stopWords, punctuation);
      PreprocessIsSubsequence(tokens[1..], stopWords, punctuation);
      if Kept(tokens[0], stopWords, punctuation) {
        assert ([tokens[0]] + rest)[1..] == rest;
      } else {
        assert [] + rest == rest;
      }
    }
  }

  /** A list in which every token passes the filter comes through unchanged. */
  lemma {:induction false} PreprocessAllKept(tokens: seq<Token>, stopWords: set<Token>, punctuation: string)
    requires forall i :: 0 <= i < |tokens| ==> Kept(tokens[i], stopWords, punctuation)
    ensures PreprocessText(tokens, stopWords, punctuation) == tokens
  {
    if tokens != [] {
      PreprocessAllKept(tokens[1..], stopWords, punctuation);
      assert [tokens[0]] + tokens[1..] == tokens;
    }
  }

  /** Occurrences survive exactly when the token passes the filter: a kept
      token keeps all its occurrences, a dropped one loses all of them. */
  lemma {:induction false} PreprocessCount(tokens: seq<Token>, stopWords: set<Token>, punctuation: string, w: Token)
    ensures Count(PreprocessText(tokens, stopWords, punctuation), w)
         == if Kept(w, stopWords, punctuation) then Count(tokens, w) else 0
  {
    if tokens != [] {
      var head := if Kept(tokens[0], stopWords, punctuation) then [tokens[0]] else [];
      PreprocessCount(tokens[1..], stopWords, punctuation, w);
      CountAppend(head, PreprocessText(tokens[1..], stopWords, punctuation), w);
      assert tokens == [tokens[0]] + tokens[1..];
      CountAppend([tokens[0]], tokens[1..], w);
      assert Count([tokens[0]], w) == if tokens[0] == w then 1 else 0 by {
        assert [tokens[0]][..0] == [];
      }
      if head == [] {
        assert Count(head, w) == 0;
      }
    }
  }

  /** A token is in the output exactly when it is in the input and passes the filter. */
  lemma PreprocessMembership(tokens: seq<Token>, stopWords: set<Token>, punctuation: string, w: Token)
    ensures w in PreprocessText(tokens, stopWords, punctuation)
        <==> w in tokens && Kept(w, stopWords, punctuation)
  {
    PreprocessCount(tokens, stopWords, punctuation, w);
  }

  /** Filtering twice is the same as filtering once. */
  lemma {:induction false} PreprocessIdempotent(tokens: seq<Token>, stopWords: set<Token>, punctuation: string)
    ensures PreprocessText(PreprocessText(tokens, stopWords, punctuation), stopWords, punctuation)
         == PreprocessText(tokens, stopWords, punctuation)
  {
    if tokens != [] {
      PreprocessIdempotent(tokens[1..], stopWords, punctuation);
      var rest := PreprocessText(tokens[1..], stopWords, punctuation);
      if Kept(tokens[0], stopWords, punctuation) {
        assert ([tokens[0]] + rest)[1..] == rest;
      } else {
        assert [] + rest == rest;
      }
    }
  }

  /** For a one-character token the substring test is a membership test on characters. */
  lemma SingleCharSubstring(t: string, p: string)
    requires |t| == 1
    ensures IsSubstring(t, p) <==> t[0] in p
  {
    if t[0] in p {
      var i :| 0 <= i < |p| && p[i] == t[0];
      assert OccursAt(t, p, i) by { assert p[i..i + 1] == [p[i]] == t; }
    }
    if IsSubstring(t, p) {
      var i :| 0 <= i <= |p| - |t| && OccursAt(t, p, i);
      assert p[i..i + 1][0] == p[i];
    }
  }

  /** A non-empty token whose first character is not a punctuation
      character is never a substring of the punctuation string. */
  lemma ForeignFirstChar(t: string, p: string)
    requires |t| > 0 && t[0] !in p
    ensures !IsSubstring(t, p)
  {
    forall i | 0 <= i <= |p| - |t| ensures !OccursAt(t, p, i) {
      assert p[i..i + |t|][0] == p[i];
    }
  }

  /** "," and "()" are removed (they occur in the punctuation string), and so
      is the empty token, which occurs in every string. */
  lemma PunctuationRemoved()
    ensures IsSubstring(",", Punctuation)
    ensures IsSubstring("()", Punctuation)
    ensures IsSubstring("", Punctuation)
  {
    assert Punctuation[11] == ',';
    assert Punctuation[7] == '(' && Punctuation[8] == ')';
    assert OccursAt(",", Punctuation, 11) by { assert Punctuation[11..12] == [Punctuation[11]]; }
    assert OccursAt("()", Punctuation, 7) by { assert Punctuation[7..9] == [Punctuation[7], Punctuation[8]]; }
    assert OccursAt("", Punctuation, 0);
  }

  /** A doubled character `cc` is a substring only where `c` sits next to itself. */
  lemma DoubledSubstring(c: char, p: string)
    requires forall i :: 0 <= i < |p| - 1 && p[i] == c ==> p[i + 1] != c
    ensures !IsSubstring([c, c], p)
    ensures !IsSubstring([c, c, c], p)
  {
    forall i | 0 <= i <= |p| - 2 ensures !OccursAt([c, c], p, i) && !OccursAt([c, c, c], p, i) {
      assert p[i..i + 2][0] == p[i] && p[i..i + 2][1] == p[i + 1];
      if i + 3 <= |p| {
        assert p[i..i + 3][0] == p[i] && p[i..i + 3][1] == p[i + 1];
      }
    }
  }

  /** "..." and "--" are kept although they are made of punctuation
      characters: the test is on substrings, not on characters, and "." and
      "-" each occur once in the punctuation string. */
  lemma PunctuationKept()
    ensures !IsSubstring("...", Punctuation)
    ensures !IsSubstring("--", Punctuation)
  {
    assert forall i :: 0 <= i < |Punctuation| && Punctuation[i] == '.' ==> i == 13;
    assert forall i :: 0 <= i < |Punctuation| && Punctuation[i] == '-' ==> i == 12;
    DoubledSubstring('.', Punctuation);
    DoubledSubstring('-', Punctuation);
  }
}
