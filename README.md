# Keyword summarizer and target-language lookup, in Dafny

The Streamlit "NLP Web App" in `app.py` has two pieces of logic of its own.
Everything else hands the text to a library.

- **`summarize_text(text, num_sentences=3)`**, shown by the Text Analysis page.
  The pipeline runs in this order:
  - it blanks every character outside `[a-zA-Z]` and lower-cases the text;
  - it splits the text into words;
  - it counts the words with `collections.Counter`;
  - it sorts the distinct words by descending count with a stable sort;
  - it keeps the first `num_sentences` and joins them with single spaces.

  The result is a keyword list, not a set of sentences.
- **The target-language chain** on the Translation page. It turns the name
  picked in the "Target Language" select box into the code the translator
  expects. A name that matches no branch is passed on unchanged.

The model is pure, as the source is. It consists of datatypes, recursive
functions and lemmas in six modules:

| module | file | what it holds |
|---|---|---|
| `Text` | `text.dfy` | normalisation, `str.split()`, `' '.join` |
| `Frequency` | `frequency.dfy` | the `Counter` table, built one `counter[w] += 1` at a time |
| `Ranking` | `ranking.dfy` | the stable descending sort, and the ranking order it produces |
| `Summarizer` | `summarizer.dfy` | `summarize_text` and its properties |
| `Languages` | `languages.dfy` | the name-to-code chain |
| `Scenarios` | `scenarios.dfy` | four texts worked through the whole pipeline |

The `Counter` is modelled as a sequence of `Entry(word, count)` in key
insertion order. It is specified by `IsCounterOf`:
- its keys are the distinct words in first-seen order, each once;
- each key carries its number of occurrences.

The sort is an insertion sort that puts an entry before the first entry whose
count is not above its own. It returns a permutation with descending counts.
On a first-seen-ordered table it produces the order "higher count first, then
earlier first occurrence" (`Ranked`). `RankedUnique` shows that this order
determines the list. So any stable sort by descending count, Python's
included, gives the same list as this one.

## Model

| member | source | states |
|---|---|---|
| Text.BlankNonLetters | app.py:22 | `re.sub('[^a-zA-Z]', ' ', s)`: same length; letters stay where they are, every other character becomes a space, so only letters and spaces are left |
| Text.Lower | app.py:22 | same length; every letter comes out lower-case, an upper-case letter as the lower-case letter at the same place in the alphabet; nothing else changes |
| Text.Normalize | app.py:22 | the result has the input's length; a letter becomes its lower-case form (a lower-case letter); every other character becomes one space |
| Text.BlankThenLower | app.py:22 | blanking the non-letters and then lower-casing, as the source does, gives exactly the normalised text |
| Text.NormalizeAppend | app.py:22 | normalisation works position by position, so it distributes over concatenation |
| Text.NonSpacesOfNormalize | app.py:22 | the normalised text without its spaces is the input's letters, lower-cased, in order |
| Text.NormalizeClean | app.py:22 | a text made only of lower-case letters and spaces is unchanged by normalisation |
| Text.WordLength | app.py:23 | the leading run of non-space characters: all of them are non-spaces and the run ends at a space or the end |
| Text.Words | app.py:23 | splitting yields only non-empty, space-free words whose characters come from the text; `WordsKeepNonSpaces`, `WordsOfWord`, `WordsOfLeadingBlanks`, `WordsBeforeSpace` and `WordsOfBlank` pin down which words |
| Text.WordsKeepNonSpaces | app.py:23 | splitting drops nothing but spaces: the words written one after another are the text's non-space characters, in order |
| Text.WordsOfWord | app.py:23 | a single word splits into itself |
| Text.WordsOfWordThen | app.py:23 | a word followed by the end or a space is split off as the first word |
| Text.WordsOfLeadingBlanks | app.py:23 | spaces in front of a text change nothing |
| Text.WordsBeforeSpace | app.py:23 | a piece that starts with a space begins a new word: the words of `a + r` are those of `a` followed by those of `r` |
| Text.WordsOfSpaceJoin | app.py:23 | the words of `a + " " + b` are the words of `a` followed by the words of `b` |
| Text.WordsOfSpaced | app.py:23 | a non-empty run of spaces separates like one space |
| Text.WordsOfTrailingBlanks | app.py:23 | spaces after a text change nothing |
| Text.WordLengthOfWord | app.py:23 | a space-free word followed by the end or a space is read whole |
| Text.WordsAtWord | app.py:23 | a run of non-spaces ending at a space or the end is read as one word, and splitting continues after it |
| Text.WordsOfBlank | app.py:22-23 | a text of spaces only splits into no words |
| Text.WordsOfNonBlank | app.py:22-23 | a text holding a non-space splits into at least one word |
| Text.WordsOfJoin | app.py:23-27 | splitting the single-space join of words gives back exactly those words |
| Text.Join | app.py:27 | joining only adds spaces: without its spaces the result is the words' own non-space characters, in order |
| Text.JoinShape | app.py:27 | the join is empty iff there are no words; no leading or trailing space; never two spaces in a row; every character is a space or comes from a word |
| Frequency.Count | app.py:24 | the number of occurrences equals the multiset multiplicity, is at most the length, and is positive iff the word occurs |
| Frequency.FirstIndex | app.py:24 | the position of the first occurrence, or the length when the word is absent |
| Frequency.Distinct | app.py:24 | the keys of the `Counter`: exactly the words of the stream, in strictly increasing first-occurrence order, so none twice |
| Frequency.Bump | app.py:24 | `counter[w] += 1` on a table with unique keys: a new word is appended with count 1; otherwise the keys stay and only `w`'s count grows by one |
| Frequency.BumpAt | app.py:24 | a key at position k gains one in place |
| Frequency.KeysOfDistinctUnique | app.py:24 | a table keyed by the distinct words has no key twice |
| Frequency.BumpKeys | app.py:24 | after one more word, the keys are the distinct words of the longer stream |
| Frequency.BumpCountsEach | app.py:24 | after one more word, every entry carries its count in the longer stream |
| Frequency.BumpCounts | app.py:24 | one more word turns the table of `ws` into the table of `ws + [w]` |
| Frequency.Tally | app.py:24 | `Counter(words)` meets `IsCounterOf`: distinct words in first-seen order, each once, each with its number of occurrences |
| Ranking.Insert | app.py:25 | inserting adds exactly one entry (multiset) and the head is the new entry or the old head |
| Ranking.InsertDescending | app.py:25 | insertion keeps the counts descending |
| Ranking.SortByCount | app.py:25 | the sort is a permutation of the table (multiset, length) with counts never increasing |
| Ranking.SortDescendingUnchanged | app.py:25 | a table whose counts already descend is left unchanged, as a stable sort must |
| Ranking.SortByCountIdempotent | app.py:25 | sorting twice is sorting once |
| Ranking.ConsRanked | app.py:25 | an entry that precedes everything in a ranked list can head it |
| Ranking.RankedTail | app.py:25 | the tail of a ranked list is ranked |
| Ranking.InsertFrontRanked | app.py:25 | an earlier-seen entry whose count is not below the head's goes first and keeps the list ranked |
| Ranking.InsertBehindRanked | app.py:25 | an entry placed behind the head keeps the list ranked |
| Ranking.InsertRanked | app.py:25 | inserting an entry seen before all others keeps the list ranked |
| Ranking.SortByCountRanked | app.py:24-25 | stability: sorting a first-seen-ordered table gives count descending, ties in first-seen order |
| Ranking.RankedUnique | app.py:25 | two ranked lists with the same entries are equal, so the ranking is fully determined |
| Summarizer.Take | app.py:26 | `s[:n]`: min(n, length) items, each equal to the item at the same place of `s` |
| Summarizer.Stream | app.py:22-23 | the word stream holds non-empty words of lower-case letters only, and written one after another they are the text's letters lower-cased, in order |
| Summarizer.RankedTable | app.py:24-25 | one entry per distinct word of the stream: as many entries as distinct words, no word twice, every word of the stream present; each entry carries its word's number of occurrences; counts never increase |
| Summarizer.TopWords | app.py:26 | at most `n` words, all from the stream, with occurrence counts never increasing |
| Summarizer.TallyInFirstSeenOrder | app.py:24 | the `Counter` keys appear in first-seen order |
| Summarizer.SortedTallyEntries | app.py:24-25 | the sorted table holds the same entries as the table, each with its count |
| Summarizer.SortedTallyCounts | app.py:24-25 | every sorted entry carries its word's number of occurrences |
| Summarizer.SameEntriesSameKeys | app.py:24-25 | tables holding the same entries hold the same words |
| Summarizer.SortedTallyKeys | app.py:24-25 | the sorted table holds exactly the words of the stream |
| Summarizer.SortedTallyIsRanking | app.py:24-25 | `sorted(counter, key=counter.get, reverse=True)` meets the ranking specification and has one entry per distinct word |
| Summarizer.EntriesFollowKeys | app.py:24-25 | count-carrying entries are determined by their words |
| Summarizer.RankingIsUnique | app.py:24-25 | any list meeting the ranking specification is the sorted table |
| Summarizer.RankedTableIsRanking | app.py:22-25 | the ranking of a text meets the specification over its normalised word stream |
| Summarizer.Summarize | app.py:21-29 | the summary uses only lower-case letters and spaces; it is empty iff nothing is selected; it neither starts nor ends with a space and never holds two spaces in a row; splitting it gives exactly the selected words, so the string is fixed by the selection |
| Summarizer.SummarizeDefault | app.py:138 | the page calls with the default count 3, so at most three words come out |
| Summarizer.TopWordsAreWords | app.py:22-26 | each output token is a non-empty word of lower-case ASCII letters from the normalised stream |
| Summarizer.TopWordsDistinct | app.py:24-26 | the output tokens are pairwise distinct |
| Summarizer.TopWordsCount | app.py:24-26 | exactly min(n, number of distinct words) tokens are output |
| Summarizer.TopWordsOrder | app.py:24-26 | along the output, counts never increase, and equal counts follow first occurrence |
| Summarizer.TopWordsAreTop | app.py:25-26 | a word left out occurs no more often than any selected word; with equal counts it was first seen later |
| Summarizer.TopWordsAll | app.py:25-26 | when n covers all distinct words, every word of the text is output |
| Summarizer.EmptySummary | app.py:22-27 | the summary is empty iff n = 0 or the text has no ASCII letter (so `""` gives `""`) |
| Summarizer.NormalizeIdempotent | app.py:22 | normalising twice is normalising once |
| Summarizer.SummaryIgnoresCaseAndSeparators | app.py:22-23 | two texts of equal length, with letters at the same places, equal up to letter case, have the same summary, whichever non-letters fill the other places |
| Summarizer.StreamDetermines | app.py:22-29 | two texts with the same word stream have the same summary |
| Summarizer.StreamOfSeparated | app.py:22-23 | a run of non-letters separates: the stream of `a + s + b` is the stream of `a` followed by that of `b` (an empty run only at either end) |
| Summarizer.SummaryIgnoresSeparatorRuns | app.py:22-29 | replacing a run of non-letters by another of any length and content leaves the summary unchanged, as long as a run between two pieces of text does not vanish |
| Summarizer.SummaryOfNormalized | app.py:22-29 | summarising the normalised text gives the same summary |
| Languages.TargetCode | app.py:156-171 | each of the eight names maps to its code in the table; any other string is returned unchanged |
| Languages.OptionsMatchTable | app.py:155-171 | the select-box options are exactly the names in the chain, each once, and no two share a code |
| Languages.OptionsGetDistinctCodes | app.py:155-171 | every offered option is translated to a code other than its name, and distinct options get distinct codes |
| Scenarios.SortMovesTiesStably | app.py:25 | sorting a table `[a, b, c]` in which `b` and `c` tie above `a` gives `[b, c, a]`: the tied entries move ahead and keep their order |
| Scenarios.MatStream | app.py:22-23 | "the cat sat on the mat the cat ran" splits into its nine words |
| Scenarios.MatTally | app.py:24 | its counts: the 3, cat 2, sat/on/mat/ran 1, in first-seen order |
| Scenarios.MatRanking | app.py:24-25 | the sorted table of that word stream |
| Scenarios.MatSummaryOfStream | app.py:21-29 | any text with that word stream gives "the cat" for n = 2 |
| Scenarios.MatSummary | app.py:21-29 | `summarize_text("the cat sat on the mat the cat ran", 2)` is "the cat" |
| Scenarios.HamletRanking | app.py:24-25 | in "to be or not to be", "to" and "be" tie at two and keep first-seen order |
| Scenarios.HamletSummary | app.py:21-29 | `summarize_text("to be or not to be", 2)` is "to be" |
| Scenarios.CatsNormalized | app.py:22 | "Cat cat CAT dog" normalises to "cat cat cat dog" |
| Scenarios.CatsSummary | app.py:21-29 | `summarize_text("Cat cat CAT dog", 1)` is "cat" |
| Scenarios.HelloNormalized | app.py:22 | "Hello, World! 123" normalises to "hello  world     " |
| Scenarios.HelloSplit | app.py:23 | that text splits into "hello" and "world", dropping the empty pieces |
| Scenarios.HelloSummary | app.py:21-29 | `summarize_text("Hello, World! 123", 5)` is "hello world" |

## Left out

- The Streamlit user interface is not part of this model: page set-up, banners, the sidebar menu, columns, expanders, buttons and warnings. This includes the minimum-length guards on the input text.
- The select box itself is not modelled. `Languages.TargetLanguages` holds only its list of options.
- `text_analyzer` is not part of this model. It is a spaCy tokenizer and lemmatizer call behind a Streamlit cache.
- The neattext statistics, stopword and punctuation stripping, WordCloud/matplotlib rendering and TextBlob sentiment are not part of this model. They are calls into foreign libraries.
- The GoogleTranslator call is network I/O. Only the name-to-code choice before it is modelled.
- Summarizer.Summarize: `num_sentences` is a `nat`. Python's `[:n]` with a negative `n` drops words from the end. No caller passes a negative count; the only caller uses the default 3.
- Text.Words: it splits on the space character only. Python's `str.split()` splits on every kind of whitespace. The results agree here because after normalisation the space is the only whitespace left.
- Text.Lower: it lower-cases ASCII letters only and leaves every other character as it is. Python's `str.lower()` covers all of Unicode (it turns 'É' into 'é'). The results agree in the summarizer because `.lower()` only ever sees the blanked text, where every non-ASCII character has already become a space.
- Text.Normalize: for the same reason it lower-cases ASCII letters only; every non-ASCII character becomes a space before any lower-casing.
- Summarizer.SummaryIgnoresCaseAndSeparators: it compares texts position by position, so both must have the same length. Texts whose separator runs differ in length are covered by `Summarizer.SummaryIgnoresSeparatorRuns`, and by `Summarizer.StreamDetermines` for any two texts with the same word stream.
- Ranking.SortByCount: Python sorts with Timsort; the model uses an insertion sort. `Summarizer.RankingIsUnique` shows that the stable descending order is unique, so both give the same list.
