/** The first half of `calculate_perplexity`: the filtered tokens get sentence
    markers on both sides and are cut into the n-gram windows that the
    language model scores (`list(ngrams(padded_tokens, model.order))`). */
module NGrams {
  import opened Common

  const StartSymbol: Token := "<s>"
  const EndSymbol: Token := "</s>"

  /** `['<s>'] + tokens + ['</s>']` */
  function Pad(tokens: seq<Token>): (padded: seq<Token>)
    ensures |padded| == |tokens| + 2
    ensures padded[0] == StartSymbol && padded[|padded| - 1] == EndSymbol
    ensures padded[1..|padded| - 1] == tokens
  {
    [StartSymbol] + tokens + [EndSymbol]
  }

  /** `list(nltk.util.ngrams(items, n))`: the windows of `n` consecutive
      items, left to right. Order 0 yields no windows (`zip()` of no
      iterators is empty), and so does an order longer than the items. */
  function Windows(items: seq<Token>, n: nat): (ws: seq<seq<Token>>)
    ensures |ws| == if 0 < n <= |items| then |items| - n + 1 else 0
    ensures forall i :: 0 <= i < |ws| ==> ws[i] == items[i..i + n]
    decreases |items|
  {
    if n == 0 || |items| < n then []
    else
      var rest := Windows(items[1..], n);
      assert forall i :: 0 <= i < |rest| ==> rest[i] == items[i + 1..i + 1 + n];
      [items[..n]] + rest
  }

  /** The windows that `model.perplexity` receives for the filtered tokens. */
  function PerplexityNGrams(tokens: seq<Token>, order: nat): seq<seq<Token>> {
    Windows(Pad(tokens), order)
  }

  /** Read back in order, unigram windows give the padded sequence again. */
  function Unwindow(ws: seq<seq<Token>>): (items: seq<Token>)
    requires forall i :: 0 <= i < |ws| ==> |ws[i]| == 1
    ensures |items| == |ws|
  {
    if ws == [] then [] else [ws[0][0]] + Unwindow(ws[1..])
  }

  /** For every order from 1 to the padded length the model receives
      `|tokens| + 3 - order` windows, each of length `order`, the first one
      starting with `<s>` and the last one ending with `</s>`. */
  lemma PerplexityNGramsShape(tokens: seq<Token>, order: nat)
    requires 1 <= order <= |tokens| + 2
    ensures var ws := PerplexityNGrams(tokens, order);
      && |ws| == |tokens| + 3 - order
      && (forall i :: 0 <= i < |ws| ==> |ws[i]| == order)
      && ws[0][0] == StartSymbol
      && ws[|ws| - 1][order - 1] == EndSymbol
  {
    var padded := Pad(tokens);
    WindowsEnds(padded, order);
  }

  lemma WindowsEnds(items: seq<Token>, n: nat)
    requires 1 <= n <= |items|
    ensures var ws := Windows(items, n);
      && (forall i :: 0 <= i < |ws| ==> |ws[i]| == n)
      && ws[0][0] == items[0]
      && ws[|ws| - 1][n - 1] == items[|items| - 1]
  {
    var ws := Windows(items, n);
    var last := |items| - n;
    assert |ws| == last + 1;
    forall i | 0 <= i < |ws| ensures |ws[i]| == n {
      assert ws[i] == items[i..i + n];
    }
    assert ws[0][0] == items[0] by {
      assert ws[0] == items[0..n];
    }
    assert ws[last][n - 1] == items[|items| - 1] by {
      assert ws[last] == items[last..last + n];
      assert items[last..last + n][n - 1] == items[last + n - 1];
    }
  }

  /** At order 1 the windows are the padded tokens one by one: never empty,
      even when no token survived filtering. */
  lemma {:induction false} UnigramWindows(tokens: seq<Token>)
    ensures |PerplexityNGrams(tokens, 1)| == |tokens| + 2 >= 2
    ensures Unwindow(PerplexityNGrams(tokens, 1)) == Pad(tokens)
  {
    UnwindowWindows(Pad(tokens));
  }

  lemma {:induction false} UnwindowWindows(items: seq<Token>)
    ensures Unwindow(Windows(items, 1)) == items
    decreases |items|
  {
    if items != [] {
      UnwindowWindows(items[1..]);
      var ws := Windows(items, 1);
      assert ws[1..] == Windows(items[1..], 1);
    }
  }

  /** With no tokens at all, the model still receives windows built from the two markers. */
  lemma EmptyTextNGrams()
    ensures PerplexityNGrams([], 1) == [[StartSymbol], [EndSymbol]]
    ensures PerplexityNGrams([], 2) == [[StartSymbol, EndSymbol]]
    ensures PerplexityNGrams([], 3) == []
  {
    var padded := Pad([]);
    assert padded == [StartSymbol, EndSymbol];
    assert padded[0..1] == [StartSymbol] && padded[1..2] == [EndSymbol];
    assert padded[0..2] == padded;
  }
}
