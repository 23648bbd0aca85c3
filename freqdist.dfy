/** `nltk.FreqDist(tokens)`: a `collections.Counter` over the filtered tokens.
    A Counter is a dictionary, so it is modelled as its list of (token, count)
    entries in insertion order; it is built the way `Counter.update` builds
    it, one token at a time from the left. */
module FreqDist {
  import opened Common
  import opened Seqs

  /** The entries of a frequency distribution, in the dictionary's iteration order. */
  type FreqDist = seq<(Token, nat)>

  /** `word_freq.keys()` */
  function Keys(fd: FreqDist): (ks: seq<Token>)
    ensures |ks| == |fd|
    ensures forall i :: 0 <= i < |fd| ==> ks[i] == fd[i].0
  {
    seq(|fd|, i requires 0 <= i < |fd| => fd[i].0)
  }

  /** `word_freq.values()` */
  function Values(fd: FreqDist): (vs: seq<nat>)
    ensures |vs| == |fd|
    ensures forall i :: 0 <= i < |fd| ==> vs[i] == fd[i].1
  {
    seq(|fd|, i requires 0 <= i < |fd| => fd[i].1)
  }

  /** `word_freq[w]`: the count stored for `w`, and 0 for a missing key as a Counter does. */
  function Lookup(fd: FreqDist, w: Token): nat {
    var i := IndexOf(Keys(fd), w);
    if i < |fd| then fd[i].1 else 0
  }

  /** One counting step: bump the entry of `w`, or append `(w, 1)` when `w` is new. */
  function Add(fd: FreqDist, w: Token): FreqDist {
    var i := IndexOf(Keys(fd), w);
    if i < |fd| then fd[i := (w, fd[i].1 + 1)] else fd + [(w, 1)]
  }

  /** `nltk.FreqDist(tokens)` */
  function Tally(tokens: seq<Token>): FreqDist {
    if tokens == [] then [] else Add(Tally(tokens[..|tokens| - 1]), tokens[|tokens| - 1])
  }

  /** The entries of a distribution have distinct keys. */
  predicate Valid(fd: FreqDist) {
    NoDuplicates(Keys(fd))
  }

  lemma LookupAt(fd: FreqDist, i: int)
    requires Valid(fd)
    requires 0 <= i < |fd|
    ensures Lookup(fd, fd[i].0) == fd[i].1
  {
    IndexOfDistinct(Keys(fd), i);
  }

  lemma AddKeys(fd: FreqDist, w: Token)
    ensures Keys(Add(fd, w)) == if w in Keys(fd) then Keys(fd) else Keys(fd) + [w]
  {
    var i := IndexOf(Keys(fd), w);
    if i < |fd| {
      assert Keys(Add(fd, w)) == Keys(fd);
    } else {
      assert Keys(Add(fd, w)) == Keys(fd) + [w];
    }
  }

  /** The keys of the tally are the distinct tokens, each once. */
  lemma {:induction false} TallyKeys(tokens: seq<Token>)
    ensures Valid(Tally(tokens))
    ensures forall w :: w in Keys(Tally(tokens)) <==> w in tokens
  {
    if tokens != [] {
      var prefix, x := tokens[..|tokens| - 1], tokens[|tokens| - 1];
      assert tokens == prefix + [x];
      TallyKeys(prefix);
      AddKeys(Tally(prefix), x);
    }
  }

  /** Counting left to right agrees with the reference count: the tally maps
      every token to its number of occurrences, and every other word to 0. */
  lemma {:induction false} TallyLookup(tokens: seq<Token>, w: Token)
    ensures Lookup(Tally(tokens), w) == Count(tokens, w)
  {
    if tokens == [] {
      return;
    }
    var prefix, x := tokens[..|tokens| - 1], tokens[|tokens| - 1];
    assert tokens == prefix + [x];
    var before := Tally(prefix);
    var fd := Tally(tokens);
    assert fd == Add(before, x);
    TallyKeys(prefix);
    TallyKeys(tokens);
    TallyLookup(prefix, w);
    AddKeys(before, x);
    var i := IndexOf(Keys(before), x);
    if w in Keys(fd) {
      var j := IndexOf(Keys(fd), w);
      LookupAt(fd, j);
      if i < |before| {
        if j != i {
          LookupAt(before, j);
        } else {
          LookupAt(before, i);
        }
      } else if j < |before| {
        LookupAt(before, j);
      }
    }
  }

  /** Every stored count is the number of occurrences of its token, hence at least 1. */
  lemma TallyEntries(tokens: seq<Token>)
    ensures forall i :: 0 <= i < |Tally(tokens)| ==>
      Tally(tokens)[i].0 in tokens && Tally(tokens)[i].1 == Count(tokens, Tally(tokens)[i].0) >= 1
  {
    var fd := Tally(tokens);
    TallyKeys(tokens);
    forall i | 0 <= i < |fd|
      ensures fd[i].0 in tokens && fd[i].1 == Count(tokens, fd[i].0)
    {
      assert Keys(fd)[i] == fd[i].0;
      LookupAt(fd, i);
      TallyLookup(tokens, fd[i].0);
    }
  }

  /** The counts add up to the number of tokens (`sum(word_freq.values())`). */
  lemma {:induction false} TallySum(tokens: seq<Token>)
    ensures Sum(Values(Tally(tokens))) == |tokens|
  {
    if tokens != [] {
      var prefix, x := tokens[..|tokens| - 1], tokens[|tokens| - 1];
      assert Tally(tokens) == Add(Tally(prefix), x);
      TallySum(prefix);
      AddSum(Tally(prefix), x);
    }
  }

  /** One counting step adds exactly one to the total. */
  lemma AddSum(fd: FreqDist, w: Token)
    ensures Sum(Values(Add(fd, w))) == Sum(Values(fd)) + 1
  {
    var i := IndexOf(Keys(fd), w);
    if i < |fd| {
      assert Add(fd, w) == fd[i := (w, fd[i].1 + 1)];
      ValuesUpdate(fd, i, (w, fd[i].1 + 1));
      SumUpdate(Values(fd), i, fd[i].1 + 1);
    } else {
      assert Add(fd, w) == fd + [(w, 1)];
      ValuesSnoc(fd, (w, 1));
      SumSnoc(Values(fd), 1);
    }
  }

  lemma ValuesUpdate(fd: FreqDist, i: int, e: (Token, nat))
    requires 0 <= i < |fd|
    ensures Values(fd[i := e]) == Values(fd)[i := e.1]
  {
  }

  lemma ValuesSnoc(fd: FreqDist, e: (Token, nat))
    ensures Values(fd + [e]) == Values(fd) + [e.1]
  {
  }

  /** The number of entries is the number of distinct tokens. */
  lemma {:induction false} TallySize(tokens: seq<Token>)
    ensures |Tally(tokens)| == |set w | w in tokens|
  {
    if tokens != [] {
      var prefix, x := tokens[..|tokens| - 1], tokens[|tokens| - 1];
      assert tokens == prefix + [x];
      TallySize(prefix);
      TallyKeys(prefix);
      AddKeys(Tally(prefix), x);
      if x in prefix {
        assert (set w | w in tokens) == (set w | w in prefix);
      } else {
        assert (set w | w in tokens) == (set w | w in prefix) + {x};
      }
    }
  }

  /** The entries appear in the order in which their tokens first occur. */
  lemma {:induction false} TallyOrder(tokens: seq<Token>)
    ensures forall i, j :: 0 <= i < j < |Tally(tokens)| ==>
      IndexOf(tokens, Tally(tokens)[i].0) < IndexOf(tokens, Tally(tokens)[j].0) < |tokens|
  {
    if tokens != [] {
      var prefix, x := tokens[..|tokens| - 1], tokens[|tokens| - 1];
      assert tokens == prefix + [x];
      var before := Tally(prefix);
      var fd := Tally(tokens);
      TallyOrder(prefix);
      TallyKeys(prefix);
      AddKeys(before, x);
      forall k | 0 <= k < |fd|
        ensures IndexOf(tokens, fd[k].0) == if k < |before| then IndexOf(prefix, before[k].0) else |prefix|
      {
        assert Keys(fd)[k] == fd[k].0;
        if k < |before| {
          assert Keys(before)[k] == before[k].0 == fd[k].0;
        }
        IndexOfSnoc(prefix, x, fd[k].0);
      }
    }
  }

  /** A word repeated `k` times is tallied as one entry with count `k`. */
  lemma {:induction false} TallyRepeated(w: Token, k: nat)
    ensures Tally(Repeat(w, k)) == if k == 0 then [] else [(w, k)]
  {
    if k > 0 {
      var s := Repeat(w, k);
      var prefix := Repeat(w, k - 1);
      assert s[..k - 1] == prefix && s[k - 1] == w by {
        assert s == prefix + [w];
      }
      TallyRepeated(w, k - 1);
      AddCount(Tally(prefix), w, k - 1);
    }
  }

  /** Counting a word into a distribution that holds only that word. */
  lemma AddCount(before: FreqDist, w: Token, c: nat)
    ensures before == (if c == 0 then [] else [(w, c)]) ==> Add(before, w) == [(w, c + 1)]
  {
    if c > 0 && before == [(w, c)] {
      assert Keys(before) == [w];
      assert IndexOf(Keys(before), w) == 0;
    }
  }

  /** Two different words are tallied once each, in order. */
  lemma TallyTwo(a: Token, b: Token)
    requires a != b
    ensures Tally([a, b]) == [(a, 1), (b, 1)]
  {
    assert [a, b][..1] == [a];
    assert [a][..0] == [];
    assert Tally([a]) == [(a, 1)];
    assert Keys([(a, 1)]) == [a];
  }
}
