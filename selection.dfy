/** The data-selection halves of `plot_most_common_words` and
    `plot_repeated_words`: which (word, count) pairs the two bar charts get,
    and the `zip(*pairs)` that splits them into words and counts. */
module WordSelection {
  import opened Common
  import opened Seqs
  import opened FreqDist

  /** Both charts show at most this many words. */
  const TopN: nat := 10

  // ---------------------------------------------------------------------------
  // most_common(n): a stable sort by descending count, then the first n entries
  // ---------------------------------------------------------------------------

  /** Puts `e` after the entries whose count is strictly larger and before the rest. */
  function Insert(e: (Token, nat), s: FreqDist): (r: FreqDist)
    ensures |r| == |s| + 1
    ensures multiset(r) == multiset(s) + multiset{e}
  {
    if s == [] || s[0].1 <= e.1 then [e] + s
    else
      assert s == [s[0]] + s[1..];
      [s[0]] + Insert(e, s[1..])
  }

  /** `sorted(items, key=count, reverse=True)`, which is stable: entries with
      equal counts keep their relative order. */
  function SortByCount(s: FreqDist): (r: FreqDist)
    ensures |r| == |s|
    ensures multiset(r) == multiset(s)
  {
    if s == [] then []
    else
      assert s == [s[0]] + s[1..];
      Insert(s[0], SortByCount(s[1..]))
  }

  /** Entries already in descending count order are left where they are. */
  lemma {:induction false} SortByCountOfSorted(s: FreqDist)
    requires SortedByCount(s)
    ensures SortByCount(s) == s
  {
    if s != [] {
      assert SortedByCount(s[1..]);
      SortByCountOfSorted(s[1..]);
      assert [s[0]] + s[1..] == s;
    }
  }

  /** `Counter.most_common(n)` */
  function MostCommon(fd: FreqDist, n: nat): FreqDist {
    Take(SortByCount(fd), n)
  }

  /** `a` first occurs in `ks` before `b` does. */
  predicate Before(ks: seq<Token>, a: Token, b: Token) {
    IndexOf(ks, a) < IndexOf(ks, b)
  }

  predicate SortedByCount(s: FreqDist) {
    forall i, j :: 0 <= i < j < |s| ==> s[i].1 >= s[j].1
  }

  /** Of two entries with the same count, the one whose word occurs first in `tokens` comes first. */
  ghost predicate TiesInFirstOccurrenceOrder(s: FreqDist, tokens: seq<Token>) {
    forall i, j :: 0 <= i < j < |s| && s[i].1 == s[j].1 ==> Before(tokens, s[i].0, s[j].0)
  }

  /** The entries' words occur in `tokens` in the order of the entries. */
  ghost predicate InFirstOccurrenceOrder(s: FreqDist, tokens: seq<Token>) {
    forall i, j :: 0 <= i < j < |s| ==> Before(tokens, s[i].0, s[j].0)
  }

  lemma {:induction false} InsertSorted(e: (Token, nat), s: FreqDist)
    requires SortedByCount(s)
    ensures SortedByCount(Insert(e, s))
  {
    if s != [] && s[0].1 > e.1 {
      InsertSorted(e, s[1..]);
      var r := Insert(e, s[1..]);
      forall k | 0 <= k < |r| ensures r[k].1 <= s[0].1 {
        assert r[k] in multiset(s[1..]) + multiset{e};
      }
    }
  }

  lemma {:induction false} SortByCountSorted(s: FreqDist)
    ensures SortedByCount(SortByCount(s))
  {
    if s != [] {
      SortByCountSorted(s[1..]);
      InsertSorted(s[0], SortByCount(s[1..]));
    }
  }

  lemma {:induction false} InsertStable(e: (Token, nat), s: FreqDist, tokens: seq<Token>)
    requires TiesInFirstOccurrenceOrder(s, tokens)
    requires forall k :: 0 <= k < |s| ==> IndexOf(tokens, e.0) < IndexOf(tokens, s[k].0)
    ensures TiesInFirstOccurrenceOrder(Insert(e, s), tokens)
  {
    if s != [] && s[0].1 > e.1 {
      assert TiesInFirstOccurrenceOrder(s[1..], tokens) by {
        forall i, j | 0 <= i < j < |s[1..]| && s[1..][i].1 == s[1..][j].1
          ensures IndexOf(tokens, s[1..][i].0) < IndexOf(tokens, s[1..][j].0)
        {
          assert s[1..][i] == s[i + 1] && s[1..][j] == s[j + 1];
        }
      }
      InsertStable(e, s[1..], tokens);
      InsertFirstTie(e, s, tokens);
      ConsTies(s[0], Insert(e, s[1..]), tokens);
    } else {
      ConsTies(e, s, tokens);
    }
  }

  /** An entry put in front keeps ties ordered when it occurs before every later tie. */
  lemma ConsTies(x: (Token, nat), r: FreqDist, tokens: seq<Token>)
    requires TiesInFirstOccurrenceOrder(r, tokens)
    requires forall k :: 0 <= k < |r| && r[k].1 == x.1 ==> Before(tokens, x.0, r[k].0)
    ensures TiesInFirstOccurrenceOrder([x] + r, tokens)
  {
    var res := [x] + r;
    forall i, j | 0 <= i < j < |res| && res[i].1 == res[j].1
      ensures Before(tokens, res[i].0, res[j].0)
    {
      assert res[j] == r[j - 1];
      if i > 0 {
        assert res[i] == r[i - 1];
        assert Before(tokens, r[i - 1].0, r[j - 1].0);
      } else {
        assert Before(tokens, x.0, r[j - 1].0);
      }
    }
  }

  /** What `Insert` puts after a larger head ties with the head only if it came from the tail. */
  lemma InsertFirstTie(e: (Token, nat), s: FreqDist, tokens: seq<Token>)
    requires s != [] && s[0].1 > e.1
    requires TiesInFirstOccurrenceOrder(s, tokens)
    ensures forall k :: 0 <= k < |Insert(e, s[1..])| && Insert(e, s[1..])[k].1 == s[0].1 ==>
      IndexOf(tokens, s[0].0) < IndexOf(tokens, Insert(e, s[1..])[k].0)
  {
    var r := Insert(e, s[1..]);
    forall k | 0 <= k < |r| && r[k].1 == s[0].1
      ensures IndexOf(tokens, s[0].0) < IndexOf(tokens, r[k].0)
    {
      assert r[k] in multiset(s[1..]) + multiset{e};
      assert r[k] in s[1..];
      var m :| 0 <= m < |s[1..]| && s[1..][m] == r[k];
      assert s[1 + m] == r[k];
    }
  }

  /** Sorting an order-respecting list breaks ties by that order. */
  lemma {:induction false} SortByCountStable(s: FreqDist, tokens: seq<Token>)
    requires InFirstOccurrenceOrder(s, tokens)
    ensures TiesInFirstOccurrenceOrder(SortByCount(s), tokens)
  {
    if s != [] {
      SortByCountStable(s[1..], tokens);
      var rest := SortByCount(s[1..]);
      forall k | 0 <= k < |rest| ensures IndexOf(tokens, s[0].0) < IndexOf(tokens, rest[k].0) {
        assert rest[k] in multiset(s[1..]);
        var m :| 0 <= m < |s[1..]| && s[1..][m] == rest[k];
        assert s[1 + m] == rest[k];
      }
      InsertStable(s[0], rest, tokens);
    }
  }

  /** `most_common(n)` on any distribution: `min(n, |fd|)` entries taken from
      `fd`, counts non-increasing, and nothing left out has a larger count
      than the last one kept. */
  lemma MostCommonSpec(fd: FreqDist, n: nat)
    ensures |MostCommon(fd, n)| == if n <= |fd| then n else |fd|
    ensures multiset(MostCommon(fd, n)) <= multiset(fd)
    ensures SortedByCount(MostCommon(fd, n))
    ensures forall e :: e in multiset(fd) - multiset(MostCommon(fd, n)) ==>
      n == |MostCommon(fd, n)| && (0 < n ==> e.1 <= MostCommon(fd, n)[n - 1].1)
  {
    var sorted := SortByCount(fd);
    var r := MostCommon(fd, n);
    var rest := sorted[|r|..];
    assert sorted == r + rest;
    assert multiset(sorted) == multiset(r) + multiset(rest);
    SortByCountSorted(fd);
    LeftOutBound(sorted, |r|);
  }

  /** In a sorted list nothing after the first `k` entries has a larger count than entry `k - 1`. */
  lemma LeftOutBound(sorted: FreqDist, k: nat)
    requires SortedByCount(sorted)
    requires k <= |sorted|
    ensures SortedByCount(sorted[..k])
    ensures forall e :: e in multiset(sorted[k..]) ==> k < |sorted| && (0 < k ==> e.1 <= sorted[k - 1].1)
  {
    forall e | e in multiset(sorted[k..]) ensures k < |sorted| && (0 < k ==> e.1 <= sorted[k - 1].1) {
      var m :| 0 <= m < |sorted[k..]| && sorted[k..][m] == e;
      assert sorted[k + m] == e;
    }
  }

  /** `word_freq.most_common(10)` on the tally of `tokens`: at most ten
      distinct words of the text, each with its true count, counts
      non-increasing, ties in first-occurrence order, and a word is left out
      only when ten words were kept, none with a smaller count. */
  lemma MostCommonOfTally(tokens: seq<Token>)
    ensures var r := MostCommon(Tally(tokens), TopN);
      && |r| == (if TopN <= |set w | w in tokens| then TopN else |set w | w in tokens|)
      && NoDuplicates(Keys(r))
      && (forall i :: 0 <= i < |r| ==> r[i].0 in tokens && r[i].1 == Count(tokens, r[i].0))
      && SortedByCount(r)
      && TiesInFirstOccurrenceOrder(r, tokens)
      && (forall w :: w in tokens && w !in Keys(r) ==> |r| == TopN && Count(tokens, w) <= r[TopN - 1].1)
      && (forall w, i :: w in tokens && w !in Keys(r) && 0 <= i < |r| && r[i].1 == Count(tokens, w) ==>
            Before(tokens, r[i].0, w))
  {
    var fd := Tally(tokens);
    var r := MostCommon(fd, TopN);
    MostCommonSpec(fd, TopN);
    TallySize(tokens);
    TallyKeys(tokens);
    MostCommonCounts(tokens, fd, r);
    MostCommonTies(tokens, fd, r);
    MostCommonLeftOut(tokens, fd, r);
    MostCommonCut(tokens, fd, r);
  }

  /** The kept entries are distinct words of the text with their true counts. */
  lemma MostCommonCounts(tokens: seq<Token>, fd: FreqDist, r: FreqDist)
    requires fd == Tally(tokens) && Valid(fd)
    requires multiset(r) <= multiset(fd)
    ensures NoDuplicates(Keys(r))
    ensures forall i :: 0 <= i < |r| ==> r[i].0 in tokens && r[i].1 == Count(tokens, r[i].0)
  {
    TallyEntries(tokens);
    forall i | 0 <= i < |r| ensures r[i].0 in tokens && r[i].1 == Count(tokens, r[i].0) {
      assert r[i] in multiset(fd);
      var k :| 0 <= k < |fd| && fd[k] == r[i];
    }
    SubMultisetKeysDistinct(fd, r);
  }

  /** Entries with equal counts are kept in first-occurrence order. */
  lemma MostCommonTies(tokens: seq<Token>, fd: FreqDist, r: FreqDist)
    requires fd == Tally(tokens)
    requires r == MostCommon(fd, TopN)
    ensures TiesInFirstOccurrenceOrder(r, tokens)
  {
    var sorted := SortByCount(fd);
    TallyOrder(tokens);
    SortByCountStable(fd, tokens);
    assert r == sorted[..|r|];
    forall i, j | 0 <= i < j < |r| && r[i].1 == r[j].1
      ensures Before(tokens, r[i].0, r[j].0)
    {
      assert r[i] == sorted[i] && r[j] == sorted[j];
      assert Before(tokens, sorted[i].0, sorted[j].0);
    }
  }

  /** A word of the text is left out only when ten were kept, none with a smaller count. */
  lemma MostCommonLeftOut(tokens: seq<Token>, fd: FreqDist, r: FreqDist)
    requires fd == Tally(tokens) && Valid(fd)
    requires forall w :: w in Keys(fd) <==> w in tokens
    requires forall e :: e in multiset(fd) - multiset(r) ==>
      TopN == |r| && (0 < TopN ==> e.1 <= r[TopN - 1].1)
    ensures forall w :: w in tokens && w !in Keys(r) ==> |r| == TopN && Count(tokens, w) <= r[TopN - 1].1
  {
    forall w | w in tokens && w !in Keys(r)
      ensures |r| == TopN && Count(tokens, w) <= r[TopN - 1].1
    {
      var k := IndexOf(Keys(fd), w);
      assert fd[k].0 == w;
      LookupAt(fd, k);
      TallyLookup(tokens, w);
      assert fd[k] !in multiset(r);
      assert fd[k] in multiset(fd) - multiset(r);
    }
  }

  /** At the cut, ties go to the word that occurs first: a left-out word comes
      after every kept word with the same count. */
  lemma MostCommonCut(tokens: seq<Token>, fd: FreqDist, r: FreqDist)
    requires fd == Tally(tokens)
    requires r == MostCommon(fd, TopN)
    ensures forall w, i :: w in tokens && w !in Keys(r) && 0 <= i < |r| && r[i].1 == Count(tokens, w) ==>
      Before(tokens, r[i].0, w)
  {
    var sorted := SortByCount(fd);
    TallyOrder(tokens);
    SortByCountStable(fd, tokens);
    TallyKeys(tokens);
    forall w | w in tokens && w !in Keys(r)
      ensures forall i :: 0 <= i < |r| && r[i].1 == Count(tokens, w) ==> Before(tokens, r[i].0, w)
    {
      var k := IndexOf(Keys(fd), w);
      assert fd[k].0 == w;
      LookupAt(fd, k);
      TallyLookup(tokens, w);
      assert fd[k] in multiset(sorted);
      TiesAtCut(sorted, |r|, tokens, fd[k]);
    }
  }

  /** In a list with ties in first-occurrence order, an entry past the first
      `n` comes after every one of the first `n` with the same count. */
  lemma TiesAtCut(sorted: FreqDist, n: nat, tokens: seq<Token>, e: (Token, nat))
    requires n <= |sorted|
    requires TiesInFirstOccurrenceOrder(sorted, tokens)
    requires e in multiset(sorted) && e.0 !in Keys(Take(sorted, n))
    ensures forall i :: 0 <= i < n && sorted[i].1 == e.1 ==> Before(tokens, sorted[i].0, e.0)
  {
    var r := Take(sorted, n);
    var m :| 0 <= m < |sorted| && sorted[m] == e;
    assert forall j :: 0 <= j < n ==> Keys(r)[j] == sorted[j].0;
    assert m >= n;
    forall i | 0 <= i < n && sorted[i].1 == e.1 ensures Before(tokens, sorted[i].0, e.0) {
      assert Before(tokens, sorted[i].0, sorted[m].0);
    }
  }

  /** Entries drawn from a distribution without repetition keep distinct keys. */
  lemma SubMultisetKeysDistinct(fd: FreqDist, r: FreqDist)
    requires Valid(fd)
    requires multiset(r) <= multiset(fd)
    ensures NoDuplicates(Keys(r))
  {
    forall i, j | 0 <= i < j < |r| ensures Keys(r)[i] != Keys(r)[j] {
      assert r[i] in multiset(r) && r[j] in multiset(r);
      SameKeySameEntry(fd, r[i], r[j]);
      ValidMultiplicity(fd, r[i]);
      TwoOccurrences(r, i, j);
    }
  }

  lemma SameKeySameEntry(fd: FreqDist, a: (Token, nat), b: (Token, nat))
    requires Valid(fd)
    ensures a in fd && b in fd && a.0 == b.0 ==> a == b
  {
    if a in fd && b in fd && a.0 == b.0 {
      var k1 :| 0 <= k1 < |fd| && fd[k1] == a;
      var k2 :| 0 <= k2 < |fd| && fd[k2] == b;
      assert Keys(fd)[k1] == Keys(fd)[k2];
    }
  }

  /** No entry occurs twice in a distribution with distinct keys. */
  lemma {:induction false} ValidMultiplicity(fd: FreqDist, e: (Token, nat))
    requires Valid(fd)
    ensures multiset(fd)[e] <= 1
  {
    if fd != [] {
      var t := fd[1..];
      assert fd == [fd[0]] + t;
      ValidTail(fd);
      assert fd[0] !in t by {
        forall i | 0 <= i < |t| ensures t[i] != fd[0] {
          assert Keys(t)[i] == t[i].0;
        }
      }
      ValidMultiplicity(t, e);
    }
  }

  lemma TwoOccurrences(r: FreqDist, i: int, j: int)
    requires 0 <= i < j < |r|
    ensures r[i] == r[j] ==> multiset(r)[r[i]] >= 2
  {
    assert r == r[..j] + [r[j]] + r[j + 1..];
    assert r[..j][i] == r[i];
  }

  // ---------------------------------------------------------------------------
  // repeated words
  // ---------------------------------------------------------------------------

  /** `[word for word, count in word_freq.items() if count > 1]` */
  function RepeatedKeys(fd: FreqDist): seq<Token> {
    if fd == [] then []
    else (if fd[0].1 > 1 then [fd[0].0] else []) + RepeatedKeys(fd[1..])
  }

  /** `repeated_words = [...][:10]` */
  function RepeatedWords(fd: FreqDist): seq<Token> {
    Take(RepeatedKeys(fd), TopN)
  }

  /** `[(word, word_freq[word]) for word in words]` */
  function WithCounts(fd: FreqDist, words: seq<Token>): (pairs: FreqDist)
    ensures |pairs| == |words|
    ensures Keys(pairs) == words
  {
    seq(|words|, i requires 0 <= i < |words| => (words[i], Lookup(fd, words[i])))
  }

  lemma LookupCons(fd: FreqDist, w: Token)
    requires fd != []
    ensures Keys(fd) == [fd[0].0] + Keys(fd[1..])
    ensures Lookup(fd, w) == if w == fd[0].0 then fd[0].1 else Lookup(fd[1..], w)
    ensures IndexOf(Keys(fd), w) == if w == fd[0].0 then 0 else 1 + IndexOf(Keys(fd[1..]), w)
  {
    assert Keys(fd) == [fd[0].0] + Keys(fd[1..]);
    assert Keys(fd)[1..] == Keys(fd[1..]);
  }

  lemma ValidTail(fd: FreqDist)
    requires Valid(fd) && fd != []
    ensures Valid(fd[1..])
    ensures fd[0].0 !in Keys(fd[1..])
  {
    var t := fd[1..];
    forall i, j | 0 <= i < j < |t| ensures Keys(t)[i] != Keys(t)[j] {
      assert Keys(fd)[i + 1] != Keys(fd)[j + 1];
    }
    forall i | 0 <= i < |t| ensures Keys(t)[i] != fd[0].0 {
      assert Keys(fd)[i + 1] != Keys(fd)[0];
    }
  }

  lemma {:induction false} RepeatedKeysAreKeys(fd: FreqDist)
    ensures forall w :: w in RepeatedKeys(fd) ==> w in Keys(fd)
  {
    if fd != [] {
      RepeatedKeysAreKeys(fd[1..]);
      LookupCons(fd, fd[0].0);
    }
  }

  /** The repeated keys are exactly the keys whose count is above 1. */
  lemma {:induction false} RepeatedKeysMembership(fd: FreqDist)
    requires Valid(fd)
    ensures forall w :: w in RepeatedKeys(fd) <==> w in Keys(fd) && Lookup(fd, w) > 1
  {
    if fd != [] {
      var t := fd[1..];
      ValidTail(fd);
      RepeatedKeysMembership(t);
      var head := if fd[0].1 > 1 then [fd[0].0] else [];
      assert RepeatedKeys(fd) == head + RepeatedKeys(t);
      forall w ensures w in RepeatedKeys(fd) <==> w in Keys(fd) && Lookup(fd, w) > 1 {
        LookupCons(fd, w);
      }
    }
  }

  /** The repeated keys keep the order of the distribution. */
  lemma {:induction false} RepeatedKeysOrder(fd: FreqDist)
    requires Valid(fd)
    ensures InKeyOrder(Keys(fd), RepeatedKeys(fd))
  {
    if fd != [] {
      ValidTail(fd);
      RepeatedKeysOrder(fd[1..]);
      var rest := RepeatedKeys(fd[1..]);
      TailIndices(fd, rest);
      if fd[0].1 > 1 {
        LookupCons(fd, fd[0].0);
        ConsInKeyOrder(Keys(fd), fd[0].0, rest);
      }
    }
  }

  /** The words of `ws` first occur in `ks` in the order of `ws`. */
  predicate InKeyOrder(ks: seq<Token>, ws: seq<Token>) {
    forall i, j :: 0 <= i < j < |ws| ==> Before(ks, ws[i], ws[j])
  }

  lemma ConsInKeyOrder(ks: seq<Token>, x: Token, rest: seq<Token>)
    requires InKeyOrder(ks, rest)
    requires forall k :: 0 <= k < |rest| ==> Before(ks, x, rest[k])
    ensures InKeyOrder(ks, [x] + rest)
  {
    var ws := [x] + rest;
    forall i, j | 0 <= i < j < |ws| ensures Before(ks, ws[i], ws[j]) {
      assert ws[j] == rest[j - 1];
      if i > 0 {
        assert ws[i] == rest[i - 1];
        assert Before(ks, rest[i - 1], rest[j - 1]);
      } else {
        assert Before(ks, x, rest[j - 1]);
      }
    }
  }

  /** Repeated keys of the tail sit one place further along in the whole distribution. */
  lemma TailIndices(fd: FreqDist, rest: seq<Token>)
    requires Valid(fd) && fd != []
    requires rest == RepeatedKeys(fd[1..])
    requires InKeyOrder(Keys(fd[1..]), rest)
    ensures forall k :: 0 <= k < |rest| ==> IndexOf(Keys(fd), rest[k]) == 1 + IndexOf(Keys(fd[1..]), rest[k])
    ensures InKeyOrder(Keys(fd), rest)
  {
    ValidTail(fd);
    RepeatedKeysAreKeys(fd[1..]);
    forall k | 0 <= k < |rest| ensures IndexOf(Keys(fd), rest[k]) == 1 + IndexOf(Keys(fd[1..]), rest[k]) {
      assert rest[k] in Keys(fd[1..]);
      LookupCons(fd, rest[k]);
    }
  }

  /** Order of keys in a tally is order of first occurrence in the tokens. */
  lemma KeysOrderIsTokenOrder(tokens: seq<Token>, a: Token, b: Token)
    requires a in tokens && b in tokens
    requires IndexOf(Keys(Tally(tokens)), a) < IndexOf(Keys(Tally(tokens)), b)
    ensures IndexOf(tokens, a) < IndexOf(tokens, b)
  {
    var fd := Tally(tokens);
    TallyKeys(tokens);
    TallyOrder(tokens);
    var i, j := IndexOf(Keys(fd), a), IndexOf(Keys(fd), b);
    assert fd[i].0 == a && fd[j].0 == b;
  }

  /** `plot_repeated_words` on the tally of `tokens`: at most ten distinct
      words, each occurring more than once and shown with its true count, in
      first-occurrence order; a repeated word is left out only when ten were
      kept, all of which occur before it. */
  lemma RepeatedWordsOfTally(tokens: seq<Token>)
    ensures var r := RepeatedWords(Tally(tokens));
      && |r| <= TopN
      && NoDuplicates(r)
      && (forall i :: 0 <= i < |r| ==> r[i] in tokens && Count(tokens, r[i]) > 1)
      && (forall i, j :: 0 <= i < j < |r| ==> IndexOf(tokens, r[i]) < IndexOf(tokens, r[j]))
      && (forall w :: Count(tokens, w) > 1 && w !in r ==>
            |r| == TopN && forall i :: 0 <= i < |r| ==> IndexOf(tokens, r[i]) < IndexOf(tokens, w))
      && (forall i :: 0 <= i < |r| ==> WithCounts(Tally(tokens), r)[i] == (r[i], Count(tokens, r[i])))
  {
    var fd := Tally(tokens);
    var ks := RepeatedKeys(fd);
    var r := RepeatedWords(fd);
    TallyKeys(tokens);
    RepeatedKeysMembership(fd);
    RepeatedKeysOrder(fd);
    assert r == ks[..|r|];
    RepeatedWordsCounts(tokens, fd, ks, r);
    RepeatedWordsInOrder(tokens, fd, ks, r);
    RepeatedWordsLeftOut(tokens, fd, ks, r);
  }

  /** The kept words are repeated tokens, shown with their true counts. */
  lemma RepeatedWordsCounts(tokens: seq<Token>, fd: FreqDist, ks: seq<Token>, r: seq<Token>)
    requires fd == Tally(tokens) && Valid(fd)
    requires forall w :: w in ks <==> w in Keys(fd) && Lookup(fd, w) > 1
    requires r == Take(ks, TopN)
    ensures forall i :: 0 <= i < |r| ==> r[i] in tokens && Count(tokens, r[i]) > 1
    ensures forall i :: 0 <= i < |r| ==> WithCounts(fd, r)[i] == (r[i], Count(tokens, r[i]))
  {
    forall i | 0 <= i < |r|
      ensures r[i] in tokens && Count(tokens, r[i]) > 1
      ensures WithCounts(fd, r)[i] == (r[i], Count(tokens, r[i]))
    {
      assert r[i] == ks[i];
      TallyLookup(tokens, r[i]);
    }
  }

  /** The kept words occur in the text in the order they are shown. */
  lemma RepeatedWordsInOrder(tokens: seq<Token>, fd: FreqDist, ks: seq<Token>, r: seq<Token>)
    requires fd == Tally(tokens)
    requires forall w :: w in ks ==> w in Keys(fd)
    requires InKeyOrder(Keys(fd), ks)
    requires r == Take(ks, TopN)
    ensures NoDuplicates(r)
    ensures forall i, j :: 0 <= i < j < |r| ==> IndexOf(tokens, r[i]) < IndexOf(tokens, r[j])
  {
    TallyKeys(tokens);
    forall i, j | 0 <= i < j < |r| ensures IndexOf(tokens, r[i]) < IndexOf(tokens, r[j]) {
      assert r[i] == ks[i] && r[j] == ks[j];
      assert Before(Keys(fd), ks[i], ks[j]);
      KeysOrderIsTokenOrder(tokens, r[i], r[j]);
    }
  }

  /** A repeated word is left out only when ten were kept, all occurring before it. */
  lemma RepeatedWordsLeftOut(tokens: seq<Token>, fd: FreqDist, ks: seq<Token>, r: seq<Token>)
    requires fd == Tally(tokens)
    requires forall w :: w in ks <==> w in Keys(fd) && Lookup(fd, w) > 1
    requires InKeyOrder(Keys(fd), ks)
    requires r == Take(ks, TopN)
    ensures forall w :: Count(tokens, w) > 1 && w !in r ==>
      |r| == TopN && forall i :: 0 <= i < |r| ==> IndexOf(tokens, r[i]) < IndexOf(tokens, w)
  {
    TallyKeys(tokens);
    forall w | Count(tokens, w) > 1 && w !in r
      ensures |r| == TopN && forall i :: 0 <= i < |r| ==> IndexOf(tokens, r[i]) < IndexOf(tokens, w)
    {
      TallyLookup(tokens, w);
      var k := IndexOf(ks, w);
      assert ks[k] == w;
      assert k >= |r|;
      forall i | 0 <= i < |r| ensures IndexOf(tokens, r[i]) < IndexOf(tokens, w) {
        assert r[i] == ks[i];
        assert Before(Keys(fd), ks[i], ks[k]);
        KeysOrderIsTokenOrder(tokens, r[i], w);
      }
    }
  }

  // ---------------------------------------------------------------------------
  // words, counts = zip(*pairs)
  // ---------------------------------------------------------------------------

  /** `zip(words, counts)`, the inverse of `Unzip`. */
  function Zip(words: seq<Token>, counts: seq<nat>): (pairs: FreqDist)
    requires |words| == |counts|
  {
    seq(|words|, i requires 0 <= i < |words| => (words[i], counts[i]))
  }

  /** `words, counts = zip(*pairs)`: the two columns of the pairs; with no
      pairs `zip()` yields nothing and the two-name unpacking fails. */
  function Unzip(pairs: FreqDist): (r: Result<(seq<Token>, seq<nat>)>)
    ensures r.Ok? <==> pairs != []
    ensures r.Err? ==> r.error == UnpackError
    ensures r.Ok? ==> |r.value.0| == |r.value.1| == |pairs| && Zip(r.value.0, r.value.1) == pairs
  {
    if pairs == [] then Err(UnpackError) else Ok((Keys(pairs), Values(pairs)))
  }

  /** Splitting and re-zipping a non-empty column pair gives it back. */
  lemma UnzipZip(words: seq<Token>, counts: seq<nat>)
    requires |words| == |counts| > 0
    ensures Unzip(Zip(words, counts)) == Ok((words, counts))
  {
    var pairs := Zip(words, counts);
    assert Keys(pairs) == words;
    assert Values(pairs) == counts;
  }
}
