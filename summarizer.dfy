/**
 * `summarize_text(text, num_sentences=3)`: the keyword "summary" of a text,
 * its most frequent normalised words joined by single spaces.
 */
module Summarizer {
  import opened Text
  import opened Frequency
  import opened Ranking

  /** The default of `num_sentences`, used by the only caller. */
  const DefaultCount: nat := 3

  /** `s[:n]` for a non-negative `n`: the first `n` items, or all of them when there are fewer. */
  function Take<T>(s: seq<T>, n: nat): (r: seq<T>)
    ensures |r| == if n < |s| then n else |s|
    ensures forall i :: 0 <= i < |r| ==> r[i] == s[i]
  {
    if n < |s| then s[..n] else s
  }

  /** The normalised word stream: `re.sub('[^a-zA-Z]', ' ', text).lower().split()`. */
  function Stream(text: string): (ws: seq<Word>)
    ensures forall w :: w in ws ==> IsWord(w)
    ensures forall w, c :: w in ws && c in w ==> IsLowerLetter(c)
    ensures Concat(ws) == LowerLetters(text)
  {
    var clean := Normalize(text);
    NonSpacesOfNormalize(text);
    WordsKeepNonSpaces(clean);
    assert forall c :: c in clean && c != ' ' ==> IsLowerLetter(c) by {
      forall c | c in clean && c != ' ' ensures IsLowerLetter(c) {
        var i :| 0 <= i < |clean| && clean[i] == c;
      }
    }
    Words(clean)
  }

  /**
   * The frequency table sorted by descending count (`sorted_words`, with
   * counts kept): one entry per distinct word of the stream, each with its
   * number of occurrences, counts never increasing.
   */
  function RankedTable(text: string): (r: seq<Entry>)
    ensures |r| == |Distinct(Stream(text))|
    ensures forall i :: 0 <= i < |r| ==> r[i].word in Stream(text) && r[i].count == Count(Stream(text), r[i].word)
    ensures forall i, j :: 0 <= i < j < |r| ==> r[i].count >= r[j].count
    ensures UniqueKeys(r)
    ensures forall w :: w in Stream(text) ==> w in Keys(r)
  {
    var ws := Stream(text);
    SortedTallyIsRanking(ws);
    SortedTallyKeys(ws);
    var r := SortByCount(Tally(ws));
    assert forall i :: 0 <= i < |r| ==> r[i].word in ws by {
      forall i | 0 <= i < |r| ensures r[i].word in ws {
        assert Keys(r)[i] == r[i].word;
      }
    }
    r
  }

  /**
   * `top_words`: the first `n` words of the ranking. At most `n` words, all
   * from the stream, with occurrence counts never increasing.
   */
  function TopWords(text: string, n: nat): (top: seq<Word>)
    ensures |top| <= n
    ensures forall w :: w in top ==> w in Stream(text)
    ensures forall i, j :: 0 <= i < j < |top| ==> Count(Stream(text), top[i]) >= Count(Stream(text), top[j])
  {
    var ws, r := Stream(text), RankedTable(text);
    var top := Take(Keys(r), n);
    TakeKeys(r, n);
    assert forall w :: w in top ==> w in ws by {
      forall w | w in top ensures w in ws {
        var i :| 0 <= i < |top| && top[i] == w;
      }
    }
    top
  }

  /** The first `n` keys of a table are the words of its first `n` entries. */
  lemma TakeKeys(r: seq<Entry>, n: nat)
    ensures |Take(Keys(r), n)| <= |r|
    ensures forall i :: 0 <= i < |Take(Keys(r), n)| ==> Take(Keys(r), n)[i] == r[i].word
  {
  }

  /**
   * What the ranking of a word stream must be: ranked (count descending,
   * first-seen order on ties), each entry carrying its word's number of
   * occurrences, and holding exactly the words of the stream.
   */
  ghost predicate IsRankingOf(ws: seq<Word>, r: seq<Entry>) {
    && Ranked(ws, r)
    && (forall i :: 0 <= i < |r| ==> r[i].count == Count(ws, r[i].word))
    && (forall w :: w in Keys(r) <==> w in ws)
  }

  /** The frequency table lists its words in first-seen order. */
  lemma TallyInFirstSeenOrder(ws: seq<Word>)
    ensures InFirstSeenOrder(ws, Tally(ws))
  {
    var t := Tally(ws);
    forall i, j | 0 <= i < j < |t| ensures FirstIndex(ws, t[i].word) < FirstIndex(ws, t[j].word) {
      assert Keys(t)[i] == t[i].word && Keys(t)[j] == t[j].word;
    }
  }

  /** Sorting keeps the table's entries, so every entry still carries its word's count. */
  lemma SortedTallyEntries(ws: seq<Word>)
    ensures forall x :: x in SortByCount(Tally(ws)) <==> x in Tally(ws)
    ensures forall x :: x in Tally(ws) ==> x.count == Count(ws, x.word) && x.word in ws
  {
    var t := Tally(ws);
    var r := SortByCount(t);
    forall x | x in r ensures x in t {
      assert x in multiset(r);
    }
    forall x | x in t ensures x in r {
      assert x in multiset(t);
    }
    forall x | x in t ensures x.count == Count(ws, x.word) && x.word in ws {
      var k :| 0 <= k < |t| && t[k] == x;
      assert Keys(t)[k] == x.word;
    }
  }

  /** Each entry of the sorted table carries its word's number of occurrences. */
  lemma SortedTallyCounts(ws: seq<Word>)
    ensures forall i :: 0 <= i < |SortByCount(Tally(ws))| ==>
      SortByCount(Tally(ws))[i].count == Count(ws, SortByCount(Tally(ws))[i].word)
  {
    var r := SortByCount(Tally(ws));
    SortedTallyEntries(ws);
    forall i | 0 <= i < |r| ensures r[i].count == Count(ws, r[i].word) {
      assert r[i] in Tally(ws);
    }
  }

  /** Two tables holding the same entries hold the same words. */
  lemma SameEntriesSameKeys(t: seq<Entry>, r: seq<Entry>)
    requires forall x :: x in r <==> x in t
    ensures forall w :: w in Keys(r) <==> w in Keys(t)
  {
    forall w | w in Keys(r) ensures w in Keys(t) {
      var i :| 0 <= i < |r| && Keys(r)[i] == w;
      assert r[i] in t;
      var k :| 0 <= k < |t| && t[k] == r[i];
      assert Keys(t)[k] == w;
    }
    forall w | w in Keys(t) ensures w in Keys(r) {
      var i :| 0 <= i < |t| && Keys(t)[i] == w;
      assert t[i] in r;
      var k :| 0 <= k < |r| && r[k] == t[i];
      assert Keys(r)[k] == w;
    }
  }

  /** The sorted table holds exactly the words of the stream. */
  lemma SortedTallyKeys(ws: seq<Word>)
    ensures forall w :: w in Keys(SortByCount(Tally(ws))) <==> w in ws
  {
    var t := Tally(ws);
    SortedTallyEntries(ws);
    SameEntriesSameKeys(t, SortByCount(t));
    assert Keys(t) == Distinct(ws);
  }

  /** The sorted table meets the ranking specification and has one entry per distinct word. */
  lemma SortedTallyIsRanking(ws: seq<Word>)
    ensures IsRankingOf(ws, SortByCount(Tally(ws)))
    ensures |SortByCount(Tally(ws))| == |Distinct(ws)|
  {
    var t := Tally(ws);
    TallyInFirstSeenOrder(ws);
    SortByCountRanked(ws, t);
    SortedTallyCounts(ws);
    SortedTallyKeys(ws);
    assert |Keys(t)| == |t|;
  }

  /**
   * Entries that carry their word's number of occurrences are fixed by their
   * words: a list of such entries holds every such entry of a list with the
   * same words.
   */
  lemma EntriesFollowKeys(ws: seq<Word>, a: seq<Entry>, b: seq<Entry>)
    requires forall i :: 0 <= i < |a| ==> a[i].count == Count(ws, a[i].word)
    requires forall i :: 0 <= i < |b| ==> b[i].count == Count(ws, b[i].word)
    requires forall w :: w in Keys(a) ==> w in Keys(b)
    ensures forall x :: x in a ==> x in b
  {
    forall x | x in a ensures x in b {
      var i :| 0 <= i < |a| && a[i] == x;
      assert Keys(a)[i] == x.word;
      assert x.word in Keys(b);
      var k :| 0 <= k < |Keys(b)| && Keys(b)[k] == x.word;
      assert b[k].word == x.word && b[k].count == x.count;
    }
  }

  /** Any list that meets the ranking specification is the sorted table. */
  lemma RankingIsUnique(ws: seq<Word>, r': seq<Entry>)
    requires IsRankingOf(ws, r')
    ensures r' == SortByCount(Tally(ws))
  {
    var r := SortByCount(Tally(ws));
    SortedTallyIsRanking(ws);
    EntriesFollowKeys(ws, r', r);
    EntriesFollowKeys(ws, r, r');
    RankedUnique(ws, r', r);
  }

  /**
   * The ranking of a text meets the ranking specification of its word stream
   * and has one entry per distinct word.
   */
  lemma RankedTableIsRanking(text: string)
    ensures IsRankingOf(Stream(text), RankedTable(text))
    ensures |RankedTable(text)| == |Distinct(Stream(text))|
  {
    SortedTallyIsRanking(Stream(text));
  }

  /**
   * `summarize_text(text, n)`. The summary is written in lower-case letters
   * and spaces, and splitting it again gives back exactly the selected words.
   */
  function Summarize(text: string, n: nat): (summary: string)
    ensures IsClean(summary)
    ensures Words(summary) == TopWords(text, n)
    ensures summary == [] <==> TopWords(text, n) == []
    ensures summary != [] ==> summary[0] != ' ' && summary[|summary| - 1] != ' '
    ensures forall i :: 0 <= i < |summary| - 1 ==> summary[i] != ' ' || summary[i + 1] != ' '
  {
    var top := TopWords(text, n);
    TopWordsAreWords(text, n);
    WordsOfJoin(top);
    JoinShape(top);
    Join(top)
  }

  /** The summary with the default count, as the text-analysis page requests it. */
  function SummarizeDefault(text: string): (summary: string)
    ensures summary == Summarize(text, DefaultCount)
    ensures |Words(summary)| <= DefaultCount
  {
    TopWordsCount(text, DefaultCount);
    Summarize(text, DefaultCount)
  }

  /**
   * Every selected word is a word of the normalised text: non-empty and made
   * of lower-case ASCII letters only.
   */
  lemma TopWordsAreWords(text: string, n: nat)
    ensures forall w :: w in TopWords(text, n) ==> w in Stream(text)
    ensures forall w :: w in TopWords(text, n) ==> IsWord(w)
    ensures forall w, c :: w in TopWords(text, n) && c in w ==> IsLowerLetter(c)
  {
    RankedTableIsRanking(text);
    var keys := Keys(RankedTable(text));
    forall w | w in TopWords(text, n) ensures w in Stream(text) {
      var i :| 0 <= i < |TopWords(text, n)| && TopWords(text, n)[i] == w;
      assert keys[i] == w;
    }
    forall w, c | w in TopWords(text, n) && c in w ensures IsLowerLetter(c) {
      assert c in Normalize(text);
      var i :| 0 <= i < |Normalize(text)| && Normalize(text)[i] == c;
    }
  }

  /** The selected words are pairwise distinct (they are keys of the table). */
  lemma TopWordsDistinct(text: string, n: nat)
    ensures forall i, j :: 0 <= i < j < |TopWords(text, n)| ==> TopWords(text, n)[i] != TopWords(text, n)[j]
  {
    RankedTableIsRanking(text);
    var r := RankedTable(text);
    forall i, j | 0 <= i < j < |TopWords(text, n)| ensures TopWords(text, n)[i] != TopWords(text, n)[j] {
      assert Precedes(Stream(text), r[i], r[j]);
      assert TopWords(text, n)[i] == r[i].word && TopWords(text, n)[j] == r[j].word;
    }
  }

  /** Exactly `min(n, number of distinct words)` words are selected. */
  lemma TopWordsCount(text: string, n: nat)
    ensures var d := |Distinct(Stream(text))|;
      |TopWords(text, n)| == if n < d then n else d
  {
    RankedTableIsRanking(text);
  }

  /**
   * Along the selection, counts never increase, and two words of equal count
   * appear in the order of their first occurrence in the word stream.
   */
  lemma TopWordsOrder(text: string, n: nat)
    ensures var ws, top := Stream(text), TopWords(text, n);
      forall i, j :: 0 <= i < j < |top| ==>
        Count(ws, top[i]) >= Count(ws, top[j]) &&
        (Count(ws, top[i]) == Count(ws, top[j]) ==> FirstIndex(ws, top[i]) < FirstIndex(ws, top[j]))
  {
    RankedTableIsRanking(text);
    var ws, r, top := Stream(text), RankedTable(text), TopWords(text, n);
    forall i, j | 0 <= i < j < |top|
      ensures Count(ws, top[i]) >= Count(ws, top[j])
      ensures Count(ws, top[i]) == Count(ws, top[j]) ==> FirstIndex(ws, top[i]) < FirstIndex(ws, top[j])
    {
      assert top[i] == r[i].word && top[j] == r[j].word;
      assert Precedes(ws, r[i], r[j]);
    }
  }

  /**
   * Top-N correctness: a word of the text that was left out occurs no more
   * often than any selected word, and when it occurs as often it was first
   * seen later.
   */
  lemma TopWordsAreTop(text: string, n: nat)
    ensures var ws, top := Stream(text), TopWords(text, n);
      forall w, i :: w in ws && w !in top && 0 <= i < |top| ==>
        Count(ws, w) <= Count(ws, top[i]) &&
        (Count(ws, w) == Count(ws, top[i]) ==> FirstIndex(ws, top[i]) < FirstIndex(ws, w))
  {
    RankedTableIsRanking(text);
    var ws, r, top := Stream(text), RankedTable(text), TopWords(text, n);
    forall w, i | w in ws && w !in top && 0 <= i < |top|
      ensures Count(ws, w) <= Count(ws, top[i])
      ensures Count(ws, w) == Count(ws, top[i]) ==> FirstIndex(ws, top[i]) < FirstIndex(ws, w)
    {
      assert w in Keys(r);
      var k :| 0 <= k < |r| && Keys(r)[k] == w;
      assert top[i] == r[i].word;
      assert top == Keys(r)[..|top|];
      assert k >= |top|;
      assert Precedes(ws, r[i], r[k]);
    }
  }

  /** When `n` covers every distinct word, nothing is left out. */
  lemma TopWordsAll(text: string, n: nat)
    requires n >= |Distinct(Stream(text))|
    ensures forall w :: w in Stream(text) <==> w in TopWords(text, n)
  {
    RankedTableIsRanking(text);
    TopWordsAreWords(text, n);
  }

  /**
   * The summary is empty exactly when no word is asked for or the text has no
   * ASCII letter at all; in particular `""` and `n = 0` give `""`.
   */
  lemma EmptySummary(text: string, n: nat)
    ensures Summarize(text, n) == [] <==>
      (n == 0 || forall i :: 0 <= i < |text| ==> !IsAsciiLetter(text[i]))
  {
    var ws := Stream(text);
    TopWordsCount(text, n);
    TopWordsAreWords(text, n);
    JoinShape(TopWords(text, n));
    if forall i :: 0 <= i < |text| ==> !IsAsciiLetter(text[i]) {
      WordsOfBlank(Normalize(text));
    } else {
      var i :| 0 <= i < |text| && IsAsciiLetter(text[i]);
      WordsOfNonBlank(Normalize(text), i);
      assert ws[0] in Distinct(ws);
    }
  }

  /** Normalising twice is normalising once. */
  lemma NormalizeIdempotent(text: string)
    ensures Normalize(Normalize(text)) == Normalize(text)
  {
  }

  /**
   * Two texts that differ only in the case of their letters and in which
   * non-letter characters they hold have the same summary.
   */
  lemma SummaryIgnoresCaseAndSeparators(a: string, b: string, n: nat)
    requires |a| == |b|
    requires forall i :: 0 <= i < |a| ==> (IsAsciiLetter(a[i]) <==> IsAsciiLetter(b[i]))
    requires forall i :: 0 <= i < |a| && IsAsciiLetter(a[i]) ==> LowerChar(a[i]) == LowerChar(b[i])
    ensures Summarize(a, n) == Summarize(b, n)
  {
    assert Normalize(a) == Normalize(b);
  }

  /** The summary depends on the text only through its word stream. */
  lemma StreamDetermines(a: string, b: string, n: nat)
    requires Stream(a) == Stream(b)
    ensures Summarize(a, n) == Summarize(b, n)
  {
  }

  /**
   * A run of non-letters separates words: the stream of `a + s + b` is the
   * stream of `a` followed by the stream of `b`. An empty run separates
   * nothing, so it is allowed only at either end of the text.
   */
  lemma StreamOfSeparated(a: string, s: string, b: string)
    requires forall i :: 0 <= i < |s| ==> !IsAsciiLetter(s[i])
    requires s != [] || a == [] || b == []
    ensures Stream(a + s + b) == Stream(a) + Stream(b)
  {
    var na, ns, nb := Normalize(a), Normalize(s), Normalize(b);
    NormalizeAppend(a + s, b);
    NormalizeAppend(a, s);
    assert Normalize(a + s + b) == na + ns + nb;
    assert forall i :: 0 <= i < |ns| ==> ns[i] == ' ';
    if s != [] {
      WordsOfSpaced(na, ns, nb);
    } else if a == [] {
      assert na + ns + nb == ns + nb;
      WordsOfLeadingBlanks(ns, nb);
    } else {
      assert na + ns + nb == na + ns;
      WordsOfTrailingBlanks(na, ns);
    }
  }

  /**
   * How long a run of non-letters is, and which non-letters it holds, does
   * not change the summary, as long as the run does not vanish between two
   * pieces of text.
   */
  lemma SummaryIgnoresSeparatorRuns(a: string, s1: string, s2: string, b: string, n: nat)
    requires forall i :: 0 <= i < |s1| ==> !IsAsciiLetter(s1[i])
    requires forall i :: 0 <= i < |s2| ==> !IsAsciiLetter(s2[i])
    requires (s1 != [] && s2 != []) || a == [] || b == []
    ensures Summarize(a + s1 + b, n) == Summarize(a + s2 + b, n)
  {
    StreamOfSeparated(a, s1, b);
    StreamOfSeparated(a, s2, b);
    StreamDetermines(a + s1 + b, a + s2 + b, n);
  }

  /** Summarising the normalised text gives the same summary. */
  lemma SummaryOfNormalized(text: string, n: nat)
    ensures Summarize(Normalize(text), n) == Summarize(text, n)
  {
    NormalizeIdempotent(text);
  }
}
