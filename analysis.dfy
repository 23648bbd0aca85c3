/** The "Text Analysis" page of `main`: once the Analyze button is pressed,
    the page shows the perplexity, the burstiness score, the verdict and the
    two bar charts, in that order, and stops at the first exception. The
    model is the sequence of items the page shows. */
module TextAnalysis {
  import opened Common
  import opened Seqs
  import opened Preprocess
  import opened FreqDist
  import opened WordSelection
  import opened NGrams
  import opened Burstiness
  import opened Classifier

  /** `MLE(1)`: the page always trains a unigram model. */
  const ModelOrder: nat := 1

  const EmptyTextWarning: string := "Please enter some text to analyze."
  const MostCommonTitle: string := "Most Common Words"
  const RepeatedTitle: string := "Repeated Words"

  /** `model.perplexity`, trained outside the model: a function from the
      n-gram windows to a float. */
  type PerplexityModel = seq<seq<Token>> -> Float

  /** One item on the page. */
  datatype Display =
    | PerplexityLine(perplexity: Float)
    | BurstinessLine(score: real)
    | ResultLine(verdict: string)
    | BarChart(title: string, words: seq<Token>, counts: seq<nat>)
    | WarningLine(message: string)
    | Raised(error: PyError)

  /** `calculate_perplexity(text, model)`, with `tokens` the tokenizer's
      output for the lower-cased text. */
  function CalculatePerplexity(tokens: seq<Token>, stopWords: set<Token>, punctuation: string,
                               order: nat, model: PerplexityModel): Float
  {
    model(PerplexityNGrams(PreprocessText(tokens, stopWords, punctuation), order))
  }

  /** `calculate_burstiness(text)`: defined exactly when a token survives the filter. */
  function CalculateBurstiness(tokens: seq<Token>, stopWords: set<Token>, punctuation: string): (r: Result<real>)
    ensures r.Ok? <==> PreprocessText(tokens, stopWords, punctuation) != []
    ensures r.Err? ==> r.error == ZeroDivisionError
    ensures r.Ok? ==> r.value >= 0.0
  {
    var filtered := PreprocessText(tokens, stopWords, punctuation);
    TokensBurstinessDefined(filtered);
    TokensBurstiness(filtered)
  }

  /** The bars of `plot_most_common_words(text)`, or the unpacking error
      when no token survives the filter. */
  function PlotMostCommonWords(tokens: seq<Token>, stopWords: set<Token>, punctuation: string): (r: Result<(seq<Token>, seq<nat>)>)
    ensures r.Ok? <==> PreprocessText(tokens, stopWords, punctuation) != []
    ensures r.Err? ==> r.error == UnpackError
  {
    var filtered := PreprocessText(tokens, stopWords, punctuation);
    TallySize(filtered);
    MostCommonSpec(Tally(filtered), TopN);
    Unzip(MostCommon(Tally(filtered), TopN))
  }

  /** The bars of `plot_repeated_words(text)`, or the unpacking error when
      no word occurs twice. */
  function PlotRepeatedWords(tokens: seq<Token>, stopWords: set<Token>, punctuation: string): (r: Result<(seq<Token>, seq<nat>)>)
    ensures r.Ok? <==> HasRepeat(PreprocessText(tokens, stopWords, punctuation))
    ensures r.Err? ==> r.error == UnpackError
  {
    var filtered := PreprocessText(tokens, stopWords, punctuation);
    RepeatedNonEmpty(filtered);
    Unzip(RepeatedPairs(Tally(filtered)))
  }

  /** `[(word, word_freq[word]) for word in repeated_words]` */
  function RepeatedPairs(fd: FreqDist): (pairs: FreqDist)
    ensures pairs == [] <==> RepeatedWords(fd) == []
  {
    WithCounts(fd, RepeatedWords(fd))
  }

  /** Some word is repeated exactly when the repeated-word list is not empty. */
  lemma RepeatedNonEmpty(tokens: seq<Token>)
    ensures RepeatedWords(Tally(tokens)) != [] <==> HasRepeat(tokens)
  {
    var r := RepeatedWords(Tally(tokens));
    RepeatedWordsOfTally(tokens);
    if r != [] {
      assert Count(tokens, r[0]) > 1;
    }
  }

  /** The page after the Analyze button, for the text in the box, the
      tokenizer's output for it and the trained model: a warning for an empty
      box, otherwise the perplexity line followed by the later items. */
  function AnalyzeText(text: string, tokens: seq<Token>, stopWords: set<Token>, punctuation: string,
                       model: PerplexityModel): (shown: seq<Display>)
    ensures text == [] <==> shown == [WarningLine(EmptyTextWarning)]
    ensures text != [] ==> |shown| > 1 && shown[0] == PerplexityLine(CalculatePerplexity(tokens, stopWords, punctuation, ModelOrder, model))
  {
    if text == [] then [WarningLine(EmptyTextWarning)]
    else
      var perplexity := CalculatePerplexity(tokens, stopWords, punctuation, ModelOrder, model);
      [PerplexityLine(perplexity)] + AfterPerplexity(tokens, stopWords, punctuation, perplexity)
  }

  /** The items after the perplexity line: the burstiness line and the
      verdict, then the two charts, each stage replaced by the exception it
      raises, after which nothing more is shown. */
  function AfterPerplexity(tokens: seq<Token>, stopWords: set<Token>, punctuation: string, perplexity: Float): (rest: seq<Display>)
    ensures |rest| == 1 || |rest| == 4
  {
    match CalculateBurstiness(tokens, stopWords, punctuation)
    case Err(e) => [Raised(e)]
    case Ok(score) =>
      [BurstinessLine(score), ResultLine(IsGeneratedText(perplexity, Finite(score)))]
      + Charts(tokens, stopWords, punctuation)
  }

  /** The most-common chart, then the repeated-word chart. */
  function Charts(tokens: seq<Token>, stopWords: set<Token>, punctuation: string): (charts: seq<Display>)
    ensures PreprocessText(tokens, stopWords, punctuation) != [] ==> |charts| == 2
    ensures |charts| == 1 || |charts| == 2
  {
    match PlotMostCommonWords(tokens, stopWords, punctuation)
    case Err(e) => [Raised(e)]
    case Ok((words, counts)) =>
      [BarChart(MostCommonTitle, words, counts)]
      + match PlotRepeatedWords(tokens, stopWords, punctuation)
        case Err(e) => [Raised(e)]
        case Ok((repeated, repeatedCounts)) => [BarChart(RepeatedTitle, repeated, repeatedCounts)]
  }

  /** Once a token survives the filter, the most-common chart is always drawn;
      the repeated-word chart follows when a word occurs twice, and the
      unpacking error takes its place otherwise. */
  lemma ChartsOutcome(tokens: seq<Token>, stopWords: set<Token>, punctuation: string)
    requires PreprocessText(tokens, stopWords, punctuation) != []
    ensures var charts := Charts(tokens, stopWords, punctuation);
      var fd := Tally(PreprocessText(tokens, stopWords, punctuation));
      && charts[0] == BarChart(MostCommonTitle, Keys(MostCommon(fd, TopN)), Values(MostCommon(fd, TopN)))
      && (!HasRepeat(PreprocessText(tokens, stopWords, punctuation)) ==> charts[1] == Raised(UnpackError))
      && (HasRepeat(PreprocessText(tokens, stopWords, punctuation)) ==>
            charts[1] == BarChart(RepeatedTitle, RepeatedWords(fd), Values(RepeatedPairs(fd))))
  {
    var fd := Tally(PreprocessText(tokens, stopWords, punctuation));
    var top := MostCommon(fd, TopN);
    var pairs := RepeatedPairs(fd);
    assert PlotMostCommonWords(tokens, stopWords, punctuation) == Ok((Keys(top), Values(top)));
    if pairs != [] {
      assert PlotRepeatedWords(tokens, stopWords, punctuation) == Ok((Keys(pairs), Values(pairs)));
    }
  }

  /** With no surviving token the burstiness raises; otherwise the score, the
      verdict on the perplexity and that score, and the charts follow. */
  lemma AfterPerplexityOutcome(tokens: seq<Token>, stopWords: set<Token>, punctuation: string, perplexity: Float)
    ensures var rest := AfterPerplexity(tokens, stopWords, punctuation, perplexity);
      var filtered := PreprocessText(tokens, stopWords, punctuation);
      && (filtered == [] ==> rest == [Raised(ZeroDivisionError)])
      && (filtered != [] ==>
            && |rest| == 4
            && rest[0] == BurstinessLine(TokensBurstiness(filtered).value)
            && rest[1] == ResultLine(IsGeneratedText(perplexity, Finite(TokensBurstiness(filtered).value)))
            && rest[2..] == Charts(tokens, stopWords, punctuation))
  {
  }

  /** Where the page stops: right after the perplexity when no token survives
      the filter, at the repeated-word chart when no word occurs twice, and
      otherwise after both charts, never at the most-common chart. */
  lemma AnalyzeTextOutcome(text: string, tokens: seq<Token>, stopWords: set<Token>, punctuation: string,
                           model: PerplexityModel)
    requires text != []
    ensures var shown := AnalyzeText(text, tokens, stopWords, punctuation, model);
      var filtered := PreprocessText(tokens, stopWords, punctuation);
      && (filtered == [] ==> |shown| == 2 && shown[1] == Raised(ZeroDivisionError))
      && (filtered != [] && !HasRepeat(filtered) ==> |shown| == 5 && shown[4] == Raised(UnpackError))
      && (HasRepeat(filtered) <==> |shown| == 5 && !shown[4].Raised?)
      && (forall i :: 0 <= i < |shown| && shown[i].Raised? ==> i == |shown| - 1 && (i == 1 || i == 4))
  {
    var filtered := PreprocessText(tokens, stopWords, punctuation);
    var shown := AnalyzeText(text, tokens, stopWords, punctuation, model);
    ShownStages(text, tokens, stopWords, punctuation, model);
    if filtered != [] {
      forall i | 0 <= i < |shown| && shown[i].Raised? ensures i == 4 {
        assert i != 0 && i != 1 && i != 2 && i != 3;
      }
    }
  }

  /** The items of the page, stage by stage. */
  lemma ShownStages(text: string, tokens: seq<Token>, stopWords: set<Token>, punctuation: string,
                    model: PerplexityModel)
    requires text != []
    ensures var shown := AnalyzeText(text, tokens, stopWords, punctuation, model);
      var filtered := PreprocessText(tokens, stopWords, punctuation);
      && (filtered == [] ==> |shown| == 2 && shown[1] == Raised(ZeroDivisionError))
      && (filtered != [] ==>
            && |shown| == 5 && shown[1].BurstinessLine? && shown[2].ResultLine? && shown[3].BarChart?
            && (!HasRepeat(filtered) ==> shown[4] == Raised(UnpackError))
            && (HasRepeat(filtered) ==> shown[4].BarChart?))
  {
    var filtered := PreprocessText(tokens, stopWords, punctuation);
    var perplexity := CalculatePerplexity(tokens, stopWords, punctuation, ModelOrder, model);
    var rest := AfterPerplexity(tokens, stopWords, punctuation, perplexity);
    var shown := AnalyzeText(text, tokens, stopWords, punctuation, model);
    assert shown[1..] == rest;
    AfterPerplexityOutcome(tokens, stopWords, punctuation, perplexity);
    if filtered != [] {
      ChartsOutcome(tokens, stopWords, punctuation);
      var charts := Charts(tokens, stopWords, punctuation);
      assert shown[3] == rest[2] == charts[0];
      assert shown[4] == rest[3] == charts[1];
    }
  }

  /** When the page shows everything, the burstiness line, the verdict and the
      charts carry what the text's word counts say. */
  lemma AnalyzedReport(text: string, tokens: seq<Token>, stopWords: set<Token>, punctuation: string,
                       model: PerplexityModel)
    requires text != []
    requires HasRepeat(PreprocessText(tokens, stopWords, punctuation))
    ensures var shown := AnalyzeText(text, tokens, stopWords, punctuation, model);
      var filtered := PreprocessText(tokens, stopWords, punctuation);
      var fd := Tally(filtered);
      && |shown| == 5
      && shown[1].BurstinessLine? && shown[1].score >= 0.0
      && (shown[1].score == 0.0 <==> forall a, b :: a in filtered && b in filtered ==> Count(filtered, a) == Count(filtered, b))
      && shown[2] == ResultLine(IsGeneratedText(shown[0].perplexity, Finite(shown[1].score)))
      && shown[3] == BarChart(MostCommonTitle, Keys(MostCommon(fd, TopN)), Values(MostCommon(fd, TopN)))
      && shown[4] == BarChart(RepeatedTitle, RepeatedWords(fd), Values(RepeatedPairs(fd)))
  {
    var filtered := PreprocessText(tokens, stopWords, punctuation);
    var perplexity := CalculatePerplexity(tokens, stopWords, punctuation, ModelOrder, model);
    var rest := AfterPerplexity(tokens, stopWords, punctuation, perplexity);
    var shown := AnalyzeText(text, tokens, stopWords, punctuation, model);
    assert shown[1..] == rest;
    assert filtered != [];
    AfterPerplexityOutcome(tokens, stopWords, punctuation, perplexity);
    ChartsOutcome(tokens, stopWords, punctuation);
    TokensBurstinessZeroIff(filtered);
    assert shown[3] == rest[2] == Charts(tokens, stopWords, punctuation)[0];
    assert shown[4] == rest[3] == Charts(tokens, stopWords, punctuation)[1];
  }

  /** The bars of the most-common chart are the distinct surviving words with
      their true counts, at most ten of them, tallest first; among equal
      counts, and at the cut after the tenth bar, the word that occurs first
      in the text wins. */
  lemma MostCommonChartSpec(tokens: seq<Token>, stopWords: set<Token>, punctuation: string)
    requires PreprocessText(tokens, stopWords, punctuation) != []
    ensures var filtered := PreprocessText(tokens, stopWords, punctuation);
      var (words, counts) := PlotMostCommonWords(tokens, stopWords, punctuation).value;
      && |words| == |counts| == (if TopN <= |set w | w in filtered| then TopN else |set w | w in filtered|)
      && NoDuplicates(words)
      && (forall i :: 0 <= i < |words| ==> words[i] in filtered && counts[i] == Count(filtered, words[i]))
      && (forall i, j :: 0 <= i < j < |counts| ==> counts[i] >= counts[j])
      && (forall i, j :: 0 <= i < j < |words| && counts[i] == counts[j] ==>
            IndexOf(filtered, words[i]) < IndexOf(filtered, words[j]))
      && (forall w :: w in filtered && w !in words ==> |words| == TopN && Count(filtered, w) <= counts[TopN - 1])
      && (forall w, i :: w in filtered && w !in words && 0 <= i < |words| && counts[i] == Count(filtered, w) ==>
            IndexOf(filtered, words[i]) < IndexOf(filtered, w))
  {
    var filtered := PreprocessText(tokens, stopWords, punctuation);
    var top := MostCommon(Tally(filtered), TopN);
    MostCommonOfTally(filtered);
    assert PlotMostCommonWords(tokens, stopWords, punctuation).value == (Keys(top), Values(top));
  }

  /** The bars of the repeated-word chart are the words occurring more than
      once, at most ten of them, in first-occurrence order, with their true
      counts; a repeated word left out occurs after all ten shown. */
  lemma RepeatedChartSpec(tokens: seq<Token>, stopWords: set<Token>, punctuation: string)
    requires HasRepeat(PreprocessText(tokens, stopWords, punctuation))
    ensures var filtered := PreprocessText(tokens, stopWords, punctuation);
      var (words, counts) := PlotRepeatedWords(tokens, stopWords, punctuation).value;
      && 0 < |words| == |counts| <= TopN
      && NoDuplicates(words)
      && (forall i :: 0 <= i < |words| ==> words[i] in filtered && counts[i] == Count(filtered, words[i]) > 1)
      && (forall i, j :: 0 <= i < j < |words| ==> IndexOf(filtered, words[i]) < IndexOf(filtered, words[j]))
      && (forall w :: Count(filtered, w) > 1 && w !in words ==>
            |words| == TopN && forall i :: 0 <= i < |words| ==> IndexOf(filtered, words[i]) < IndexOf(filtered, w))
  {
    var filtered := PreprocessText(tokens, stopWords, punctuation);
    var fd := Tally(filtered);
    var pairs := WithCounts(fd, RepeatedWords(fd));
    RepeatedWordsOfTally(filtered);
    RepeatedNonEmpty(filtered);
    assert PlotRepeatedWords(tokens, stopWords, punctuation).value == (Keys(pairs), Values(pairs));
  }

  /** A box holding only a stopword: the perplexity of the two markers is
      shown, then the burstiness divides by zero. */
  lemma StopwordOnlyText(model: PerplexityModel)
    ensures AnalyzeText("The", ["the"], {"the"}, Punctuation, model)
         == [PerplexityLine(model([[StartSymbol], [EndSymbol]])), Raised(ZeroDivisionError)]
  {
    assert PreprocessText(["the"], {"the"}, Punctuation) == [];
    EmptyTextNGrams();
    AnalyzeTextOutcome("The", ["the"], {"the"}, Punctuation, model);
  }

  /** One word that survives the filter, said `k > 1` times: burstiness 0,
      and both charts show that word with count `k`. */
  lemma RepeatedWordText(text: string, w: Token, k: nat, stopWords: set<Token>, punctuation: string, model: PerplexityModel)
    requires text != [] && k > 1
    requires Kept(w, stopWords, punctuation)
    ensures var tokens := Repeat(w, k);
      var perplexity := CalculatePerplexity(tokens, stopWords, punctuation, ModelOrder, model);
      AnalyzeText(text, tokens, stopWords, punctuation, model)
      == [PerplexityLine(perplexity), BurstinessLine(0.0), ResultLine(IsGeneratedText(perplexity, Finite(0.0))),
          BarChart(MostCommonTitle, [w], [k]), BarChart(RepeatedTitle, [w], [k])]
  {
    var tokens := Repeat(w, k);
    var fd := [(w, k)];
    assert PreprocessText(tokens, stopWords, punctuation) == tokens by {
      PreprocessAllKept(tokens, stopWords, punctuation);
    }
    assert Tally(tokens) == fd by {
      TallyRepeated(w, k);
    }
    assert Keys(fd) == [w] && Values(fd) == [k];
    assert MostCommon(fd, TopN) == fd && RepeatedWords(fd) == [w] && RepeatedPairs(fd) == fd by {
      SingleEntrySelections(fd);
    }
    assert HasRepeat(tokens) by {
      TallyLookup(tokens, w);
      LookupAt(fd, 0);
    }
    assert TokensBurstiness(tokens) == Ok(0.0) by {
      SingleCountBurstiness(k);
    }
    PageOfFiltered(text, tokens, stopWords, punctuation, model, tokens, fd, 0.0);
  }

  /** The whole page once the filtered tokens are non-empty and their tally
      and burstiness are known: everything up to the most-common chart, then
      the repeated-word chart or the unpacking error. */
  lemma PageOfFiltered(text: string, tokens: seq<Token>, stopWords: set<Token>, punctuation: string,
                       model: PerplexityModel, filtered: seq<Token>, fd: FreqDist, score: real)
    requires text != []
    requires PreprocessText(tokens, stopWords, punctuation) == filtered && filtered != []
    requires Tally(filtered) == fd && TokensBurstiness(filtered) == Ok(score)
    ensures var perplexity := CalculatePerplexity(tokens, stopWords, punctuation, ModelOrder, model);
      AnalyzeText(text, tokens, stopWords, punctuation, model)
      == [PerplexityLine(perplexity), BurstinessLine(score), ResultLine(IsGeneratedText(perplexity, Finite(score))),
          BarChart(MostCommonTitle, Keys(MostCommon(fd, TopN)), Values(MostCommon(fd, TopN))),
          if HasRepeat(filtered) then BarChart(RepeatedTitle, RepeatedWords(fd), Values(RepeatedPairs(fd)))
          else Raised(UnpackError)]
  {
    var perplexity := CalculatePerplexity(tokens, stopWords, punctuation, ModelOrder, model);
    var top := MostCommon(fd, TopN);
    var last := if HasRepeat(filtered) then BarChart(RepeatedTitle, RepeatedWords(fd), Values(RepeatedPairs(fd)))
                else Raised(UnpackError);
    var rest := AfterPerplexity(tokens, stopWords, punctuation, perplexity);
    var charts := Charts(tokens, stopWords, punctuation);
    var burstinessLine := BurstinessLine(score);
    var verdict := ResultLine(IsGeneratedText(perplexity, Finite(score)));
    var chart := BarChart(MostCommonTitle, Keys(top), Values(top));
    assert AnalyzeText(text, tokens, stopWords, punctuation, model) == [PerplexityLine(perplexity)] + rest;
    assert rest == [burstinessLine, verdict] + charts by {
      assert CalculateBurstiness(tokens, stopWords, punctuation) == Ok(score);
    }
    assert charts == [chart, last] by {
      ChartsOutcome(tokens, stopWords, punctuation);
    }
    FiveItems(PerplexityLine(perplexity), burstinessLine, verdict, chart, last);
  }

  lemma FiveItems(p: Display, b: Display, r: Display, c: Display, l: Display)
    ensures [p] + ([b, r] + [c, l]) == [p, b, r, c, l]
  {
  }

  /** A distribution with one entry is its own top list and, when the count exceeds 1, its own repeated list. */
  lemma SingleEntrySelections(fd: FreqDist)
    requires |fd| == 1
    ensures MostCommon(fd, TopN) == fd
    ensures fd[0].1 > 1 ==> RepeatedWords(fd) == [fd[0].0] && RepeatedPairs(fd) == fd
  {
    SortByCountOfSorted(fd);
    assert fd[1..] == [];
    assert RepeatedKeys(fd) == (if fd[0].1 > 1 then [fd[0].0] else []) + RepeatedKeys([]);
    LookupAt(fd, 0);
  }

  /** Two different words that survive the filter: burstiness 0, the
      most-common chart shows both with count 1, and the repeated-word chart
      raises because nothing occurs twice. */
  lemma DistinctWordsText(text: string, a: Token, b: Token, stopWords: set<Token>, punctuation: string, model: PerplexityModel)
    requires text != [] && a != b
    requires Kept(a, stopWords, punctuation) && Kept(b, stopWords, punctuation)
    ensures var tokens := [a, b];
      var perplexity := CalculatePerplexity(tokens, stopWords, punctuation, ModelOrder, model);
      AnalyzeText(text, tokens, stopWords, punctuation, model)
      == [PerplexityLine(perplexity), BurstinessLine(0.0), ResultLine(IsGeneratedText(perplexity, Finite(0.0))),
          BarChart(MostCommonTitle, [a, b], [1, 1]), Raised(UnpackError)]
  {
    PreprocessAllKept([a, b], stopWords, punctuation);
    TallyTwo(a, b);
    TwoWordsTop(a, b);
    TwoWordsSpread(a, b);
    PageOfFiltered(text, [a, b], stopWords, punctuation, model, [a, b], [(a, 1), (b, 1)], 0.0);
  }

  /** Two words counted once each are already in most-common order. */
  lemma TwoWordsTop(a: Token, b: Token)
    ensures MostCommon([(a, 1), (b, 1)], TopN) == [(a, 1), (b, 1)]
    ensures Keys([(a, 1), (b, 1)]) == [a, b] && Values([(a, 1), (b, 1)]) == [1, 1]
  {
    SortByCountOfSorted([(a, 1), (b, 1)]);
  }

  /** Two different words: nothing repeats and the burstiness is 0. */
  lemma TwoWordsSpread(a: Token, b: Token)
    requires a != b
    ensures TokensBurstiness([a, b]) == Ok(0.0)
    ensures !HasRepeat([a, b])
  {
    AllDistinctBurstinessZero([a, b]);
    CountDistinct([a, b], a);
    CountDistinct([a, b], b);
  }
}
