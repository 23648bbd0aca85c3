# Text statistics of the writing assistant

The writing assistant (`app.py`) is a Streamlit page. Its "Text Analysis" view takes the text in a box and shows five things in order:

1. a perplexity from a unigram (MLE) language model;
2. a "burstiness" score;
3. a two-way verdict on whether a language model wrote the text;
4. a bar chart of the ten most common words;
5. a bar chart of up to ten repeated words.

This project models the text-statistics core behind that view in Dafny and proves properties of it. The model follows `app.py` piece by piece. Everything in this core is side-effect-free, so the model uses datatypes, functions and lemmas only.

- `common.dfy`: module `Common`.
  - `Token` is a string.
  - The two Python exceptions the page can raise: `ZeroDivisionError`, and the `ValueError` from unpacking `zip(*[])`.
  - A `Result` type.
- `seqs.dfy`: module `Seqs`. Reference definitions on sequences:
  - occurrence counts and first occurrences;
  - sums and Python's `s[:n]`;
  - subsequences.
- `preprocess.dfy`: module `Preprocess`. The filter of `preprocess_text`.
  - The tokenizer's output and the stopword set are parameters.
  - The punctuation test is Python's `token not in string.punctuation`. This is a substring test on the punctuation string.
- `freqdist.dfy`: module `FreqDist`. `nltk.FreqDist(tokens)`, a `Counter`.
  - It is kept as its list of (word, count) entries, in dictionary (insertion) order.
  - It is built one token at a time, as `Counter.update` builds it.
  - Looking up a missing key gives 0.
- `selection.dfy`: module `WordSelection`. The data halves of the two chart functions:
  - `most_common(10)`, a stable sort by descending count followed by `[:10]`;
  - the repeated-word list;
  - `zip(*pairs)`, which fails to unpack when there are no pairs.
- `ngrams.dfy`: module `NGrams`. The padding with `<s>` and `</s>`, and the n-gram windows that `calculate_perplexity` hands to the model.
- `burstiness.dfy`: module `Burstiness`. `calculate_burstiness` in exact rational arithmetic.
  - It is the population variance of the counts divided by the squared mean.
  - It raises `ZeroDivisionError` when there are no counts.
- `classifier.dfy`: module `Classifier`. `is_generated_text`.
  - The perplexity is a Python float as far as `<` can tell: finite, one of the two infinities, or NaN.
- `analysis.dfy`: module `TextAnalysis`. The "Text Analysis" branch of `main`.
  - The page is the sequence of items it shows.
  - An exception ends the page at the stage that raised it.

Three behaviours of the code that a reader might not expect:

- **Punctuation is removed by a substring test, not a per-character test.** A token goes when it occurs as a substring of `string.punctuation` (app.py:39). So `","`, `"()"` and the empty token go, and `"..."` and `"--"` stay.
- **Empty statistics raise.** With no surviving token, `calculate_burstiness` raises `ZeroDivisionError` at its first division (app.py:87). The `if text:` guard (app.py:153) tests only the raw string, so it does not prevent this. With no word occurring twice, the repeated-word chart raises an unpacking `ValueError` (app.py:64).
- **No "insufficient data" path exists.** `is_generated_text` (app.py:94-98) has no branch for undefined input. The burstiness reaches it only as a finite number, because the empty case has already raised.

## Model

| member | source | states |
|---|---|---|
| Preprocess.PreprocessText | app.py:39 | no more tokens come out than go in, and no kept token is a stopword or a substring of the punctuation string |
| Preprocess.PreprocessIsSubsequence | app.py:39 | the kept tokens are the tokenizer's output with some tokens deleted, in the original order |
| Preprocess.PreprocessCount | app.py:39 | a word that passes the filter keeps every occurrence, and a word that fails it keeps none |
| Preprocess.PreprocessMembership | app.py:39 | a word is in the output exactly when it is in the input and is neither a stopword nor a substring of the punctuation |
| Preprocess.PreprocessIdempotent | app.py:39 | filtering the filtered tokens again changes nothing |
| Preprocess.PreprocessAllKept | app.py:39 | a token list in which every token passes the filter comes through unchanged |
| Preprocess.SingleCharSubstring | app.py:39 | for a one-character token the substring test is the same as character membership |
| Preprocess.ForeignFirstChar | app.py:39 | a non-empty token whose first character is not in the punctuation string is never removed as punctuation |
| Preprocess.DoubledSubstring | app.py:39 | a doubled or tripled character is not a substring of a string in which that character never appears twice in a row |
| Preprocess.PunctuationRemoved | app.py:39 | `","`, `"()"` and the empty token are substrings of the punctuation string, so they are removed |
| Preprocess.PunctuationKept | app.py:39 | `"..."` and `"--"` are not substrings of the punctuation string, so they are kept |
| FreqDist.AddKeys | app.py:45 | one counting step keeps the keys of a word already seen, and appends a new word at the end |
| FreqDist.AddSum | app.py:45 | one counting step adds exactly one to the total of the counts |
| FreqDist.LookupAt | app.py:64 | in a distribution with distinct keys, `word_freq[w]` is the count stored in the entry of `w` |
| FreqDist.TallyKeys | app.py:45 | the keys of the tally are distinct, and they are exactly the tokens |
| FreqDist.TallyLookup | app.py:45 | `word_freq[w]` equals the number of occurrences of `w` for every word, and is 0 for a word not in the text |
| FreqDist.TallyEntries | app.py:45 | every stored count is the number of occurrences of its word, so it is at least 1 |
| FreqDist.TallySum | app.py:87 | the counts add up to the number of filtered tokens, which is `sum(word_freq.values())` |
| FreqDist.TallySize | app.py:87 | `len(word_freq)` is the number of distinct filtered tokens |
| FreqDist.TallyOrder | app.py:62 | the entries come in the order in which their words first occur in the text |
| FreqDist.TallyRepeated | app.py:45 | a word said k times is tallied as the single entry (word, k) |
| FreqDist.TallyTwo | app.py:45 | two different words are tallied once each, in order |
| WordSelection.Insert | app.py:46 | inserting an entry into the sorted list adds exactly that entry |
| WordSelection.SortByCount | app.py:46 | the sorted list is a permutation of the entries |
| WordSelection.SortByCountSorted | app.py:46 | the sorted list has non-increasing counts |
| WordSelection.InsertSorted | app.py:46 | inserting into a list with non-increasing counts keeps the counts non-increasing |
| WordSelection.SortByCountStable | app.py:46 | entries with equal counts keep their first-occurrence order, as Python's stable sort keeps them |
| WordSelection.InsertStable | app.py:46 | inserting an entry that occurs before all others keeps ties in first-occurrence order |
| WordSelection.SortByCountOfSorted | app.py:46 | a list already in descending count order is left unchanged |
| WordSelection.MostCommonSpec | app.py:46 | `most_common(n)` has min(n, entries) entries drawn from the distribution, with non-increasing counts, and no entry left out has a larger count than the last one kept |
| WordSelection.LeftOutBound | app.py:46 | in a sorted list no entry after the first k has a larger count than entry k-1 |
| WordSelection.MostCommonOfTally | app.py:45-46 | the top-10 list of a text: min(10, distinct words) entries, no word twice, true counts, non-increasing counts, ties in first-occurrence order, a word left out only when ten were kept, none with a smaller count, and a left-out word occurs after every kept word with the same count |
| WordSelection.MostCommonCounts | app.py:45-46 | the top-10 entries are distinct words of the text with their true counts |
| WordSelection.MostCommonTies | app.py:45-46 | top-10 entries with equal counts appear in first-occurrence order |
| WordSelection.MostCommonLeftOut | app.py:45-46 | a word of the text is missing from the top-10 list only when ten were kept, each with a count at least as large |
| WordSelection.MostCommonCut | app.py:45-46 | ties at the cut go to the word that occurs first: a word left out of the top-10 list occurs after every kept word with the same count |
| WordSelection.TiesAtCut | app.py:46 | in a list with ties in first-occurrence order, an entry past the first n comes after each of the first n with the same count |
| WordSelection.SubMultisetKeysDistinct | app.py:46 | entries taken from a distribution with distinct keys have distinct keys |
| WordSelection.RepeatedKeysMembership | app.py:62 | a word is in the repeated-word comprehension exactly when it is a key with count above 1 |
| WordSelection.RepeatedKeysOrder | app.py:62 | the repeated words keep the order of the distribution's keys |
| WordSelection.RepeatedWordsOfTally | app.py:61-64 | the repeated-word list of a text: at most 10 words, no word twice, each occurring more than once, in first-occurrence order, each paired with its true count, and a repeated word left out only when ten were kept, all occurring before it |
| WordSelection.RepeatedWordsCounts | app.py:62-64 | every listed word occurs more than once, and its pair carries its true count |
| WordSelection.RepeatedWordsInOrder | app.py:62 | the listed words are distinct and appear in first-occurrence order |
| WordSelection.RepeatedWordsLeftOut | app.py:62 | a repeated word is left out only when ten were kept, all of which occur before it |
| WordSelection.KeysOrderIsTokenOrder | app.py:62 | key order in the tally is the order of first occurrence in the text |
| WordSelection.WithCounts | app.py:64 | the list of pairs has one pair per word, with the words in the same order |
| WordSelection.Unzip | app.py:48 | `zip(*pairs)` unpacks exactly when there are pairs, gives two equally long columns that zip back to the pairs, and fails with the unpacking error otherwise |
| WordSelection.UnzipZip | app.py:48 | splitting re-zipped non-empty columns gives the columns back |
| NGrams.Pad | app.py:77 | the padded list is `<s>`, the tokens, `</s>`, and it has length \|tokens\| + 2 |
| NGrams.Windows | app.py:78 | there are \|items\| - n + 1 windows for 0 < n <= \|items\| and none otherwise, and window i is items[i .. i+n) |
| NGrams.WindowsEnds | app.py:78 | every window has length n, the first starts with the first item, and the last ends with the last item |
| NGrams.PerplexityNGramsShape | app.py:77-78 | for every order from 1 to the padded length the model gets \|tokens\| + 3 - order windows of that length, starting with `<s>` and ending with `</s>` |
| NGrams.UnigramWindows | app.py:77-78 | at order 1 the model gets at least two windows, and read back in order they are the padded tokens |
| NGrams.EmptyTextNGrams | app.py:77-78 | with no tokens left the model still gets the windows of the two markers at orders 1 and 2, and none at order 3 |
| Burstiness.Mean | app.py:87 | `avg_freq` is non-negative, and it is 0 exactly when the counts add up to 0 |
| Burstiness.SquaredDeviations | app.py:88 | the sum of squared deviations is non-negative |
| Burstiness.SquaredDeviationsZero | app.py:88 | the squared deviations vanish exactly when every count equals the mean |
| Burstiness.Variance | app.py:88 | the variance is non-negative, and it is 0 exactly when the squared deviations are |
| Burstiness.Burstiness | app.py:87-90 | the score is defined exactly when the counts add up to more than 0, and is then non-negative; otherwise it is a ZeroDivisionError |
| Burstiness.BurstinessZeroIff | app.py:87-90 | a defined score is 0 exactly when all counts are equal |
| Burstiness.AllAtMean | app.py:87-88 | every count equals the mean exactly when all counts are equal |
| Burstiness.MeanOfEqual | app.py:87 | the mean of counts that are all c is c |
| Burstiness.TokensBurstinessDefined | app.py:84-87 | the score of a filtered text is defined exactly when a token survived the filter, and otherwise it is the ZeroDivisionError of `len(word_freq) == 0` |
| Burstiness.TokensBurstinessZeroIff | app.py:84-90 | for a non-empty filtered text the score is 0 exactly when all its distinct words occur equally often |
| Burstiness.AllDistinctBurstinessZero | app.py:84-90 | a text whose words each occur once has score 0 |
| Burstiness.SingleCountBurstiness | app.py:87-90 | a single distinct word has score 0, whatever its count |
| Burstiness.BurstinessOfSkewedCounts | app.py:87-90 | counts 7, 1, 1, 1 give 27/25, which is above the threshold 1 |
| Burstiness.BurstinessOfMildCounts | app.py:87-90 | counts 2, 1, 1 give 1/8 |
| Burstiness.BurstinessUndefined | app.py:87-90 | no counts, or counts that are all 0, raise ZeroDivisionError |
| Classifier.IsGeneratedText | app.py:94-98 | the verdict is always one of the two label strings, and it is the first one exactly when perplexity < 100 and burstiness < 1 under IEEE comparison |
| Classifier.IsGeneratedTextMonotone | app.py:95 | lowering either score never turns "Likely generated" into "Not likely generated" |
| Classifier.UnboundedPerplexityNotGenerated | app.py:95 | an infinite or NaN perplexity always gives "Not likely generated" |
| Classifier.ThresholdsAreStrict | app.py:95 | a perplexity of exactly 100, or a burstiness of exactly 1, gives "Not likely generated" |
| Classifier.LabelsDistinct | app.py:96-98 | the two labels are different strings |
| TextAnalysis.CalculateBurstiness | app.py:83-91 | `calculate_burstiness` returns a non-negative score exactly when a token survives the filter, and raises ZeroDivisionError otherwise |
| TextAnalysis.PlotMostCommonWords | app.py:43-48 | the most-common chart gets its bars exactly when a token survives the filter, and fails to unpack otherwise |
| TextAnalysis.PlotRepeatedWords | app.py:59-64 | the repeated-word chart gets its bars exactly when some filtered word occurs twice, and fails to unpack otherwise |
| TextAnalysis.RepeatedPairs | app.py:64 | the list of pairs is empty exactly when the repeated-word list is |
| TextAnalysis.RepeatedNonEmpty | app.py:62-64 | the repeated-word list is non-empty exactly when some word occurs at least twice |
| TextAnalysis.MostCommonChartSpec | app.py:43-48 | the most-common bars are min(10, distinct) distinct surviving words, each with its true count, tallest first, equal counts in first-occurrence order, none left out is taller than the last bar, and a left-out word occurs after every bar of the same height |
| TextAnalysis.RepeatedChartSpec | app.py:59-64 | the repeated-word bars are 1 to 10 distinct words, each occurring more than once, in first-occurrence order, with true counts, and a repeated word is missing only when ten are shown, all of which occur before it |
| TextAnalysis.AnalyzeText | app.py:150-179 | an empty box shows only the warning; otherwise the page starts with the perplexity of the filtered, padded windows |
| TextAnalysis.AfterPerplexity | app.py:164-176 | after the perplexity the page shows one item, if burstiness raised, or four |
| TextAnalysis.Charts | app.py:172-176 | the chart stage shows one or two items, and two whenever a token survived the filter |
| TextAnalysis.ChartsOutcome | app.py:172-176 | once a token survives, the first chart is the top-10 list; the second is the repeated-word chart when a word repeats, and the unpacking error otherwise |
| TextAnalysis.AfterPerplexityOutcome | app.py:164-176 | with no surviving token the page raises ZeroDivisionError; otherwise it shows the score, the verdict on the perplexity and that score, and then the charts |
| TextAnalysis.ShownStages | app.py:160-176 | what each position of the page holds, for each of the three ways the page can end |
| TextAnalysis.AnalyzeTextOutcome | app.py:152-179 | for a non-empty box the page stops at the burstiness when nothing survives the filter, and at the repeated-word chart when nothing repeats; it shows all five items exactly when a word repeats; an exception is always the last item and never the most-common chart |
| TextAnalysis.AnalyzedReport | app.py:160-176 | when the page shows everything, the score is non-negative and 0 exactly when all words occur equally often, the verdict uses the perplexity and that score, and the charts are the top-10 and repeated-word lists |
| TextAnalysis.PageOfFiltered | app.py:160-176 | the full five-item page, given the filtered tokens, their tally and their score |
| TextAnalysis.StopwordOnlyText | app.py:153-166 | the box "The" passes `if text:`, shows the perplexity of the two markers, and then raises ZeroDivisionError |
| TextAnalysis.RepeatedWordText | app.py:150-176 | one word that survives the filter, repeated k > 1 times, gives score 0, and both charts show that word with count k |
| TextAnalysis.DistinctWordsText | app.py:150-176 | two different words that survive the filter give score 0 and a most-common chart of both with count 1, and then the repeated-word chart fails to unpack |
| TextAnalysis.SingleEntrySelections | app.py:46-64 | a one-entry distribution is its own top-10 list, and its own repeated list when the count is above 1 |
| TextAnalysis.TwoWordsTop | app.py:46 | two words counted once each are already in most-common order |
| TextAnalysis.TwoWordsSpread | app.py:87-90 | two different words repeat nothing and have score 0 |

The table names the members whose contracts state properties. The definitions that model the individual Python calls have no contract of their own; each is pinned down by the rows named beside it:

- `FreqDist.Tally` models `nltk.FreqDist(tokens)` (app.py:45), built by `FreqDist.Add`, one `Counter.update` step per token. See FreqDist.TallyKeys, FreqDist.TallyLookup, FreqDist.TallyEntries, FreqDist.TallyOrder and FreqDist.TallySum.
- `FreqDist.Lookup` models `word_freq[word]` (app.py:64), with 0 for a missing key. See FreqDist.LookupAt and FreqDist.TallyLookup.
- `WordSelection.MostCommon` models `most_common(10)` (app.py:46). See WordSelection.MostCommonSpec and WordSelection.MostCommonOfTally.
- `WordSelection.RepeatedKeys` and `WordSelection.RepeatedWords` model the list comprehension and its `[:10]` (app.py:62). See WordSelection.RepeatedKeysMembership, WordSelection.RepeatedKeysOrder and WordSelection.RepeatedWordsOfTally.
- `Preprocess.Kept` and `Preprocess.IsSubstring` model the filter condition of app.py:39. See Preprocess.PreprocessAllKept, Preprocess.PunctuationRemoved and Preprocess.PunctuationKept.
- `Burstiness.TokensBurstiness` models `calculate_burstiness` on the surviving tokens (app.py:84-91). See Burstiness.TokensBurstinessDefined and Burstiness.TokensBurstinessZeroIff.
- `NGrams.PerplexityNGrams` models the padding and the window list (app.py:77-78). See NGrams.PerplexityNGramsShape, NGrams.UnigramWindows and NGrams.EmptyTextNGrams.
- `Classifier.LessThan` models Python's `<` between a float and a number (app.py:95). See Classifier.IsGeneratedTextMonotone and Classifier.UnboundedPerplexityNotGenerated.

## Left out

- Tokenization and lower-casing (`nltk.word_tokenize(text.lower())`, app.py:37) are external. The tokenizer's output is a parameter, and the page passes the same output to each of its four `preprocess_text` calls, as the deterministic tokenizer would produce.
- The English stopword list (app.py:38) is external and becomes a parameter.
- The perplexity value and its model are external. The Brown corpus, `padded_everygram_pipeline` and the `MLE(1)` training (app.py:155-158) depend on an external corpus and library. `model.perplexity` (app.py:79) is a parameter function from n-gram windows to a float. Any exception it could raise is not modelled.
- CalculatePerplexity: states nothing about the value. It only composes the modelled padding and windowing with the model parameter.
- Burstiness: is computed in exact rational arithmetic. The rounding of Python floats is not modelled, and neither is `st.write`'s rendering of the number.
- Classifier.IsGeneratedText: receives the burstiness as a finite value, because the modelled burstiness is always a finite rational.
- The matplotlib figures and the Streamlit widgets (app.py:50-56, 66-72, 143-152) are user interface. Each chart is modelled as its title and its two columns. The box, the button and the other pages are not modelled.
- The grammar check, summariser and article writer (app.py:102-139) are calls to outside models and services. So are the remaining pages of `main`, and `crew.py` is not part of this model.
- Loading environment variables (app.py:12, 19) is configuration with no logic.
