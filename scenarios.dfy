/**
 * The summarizer on concrete texts, worked out step by step from the
 * definitions. Each example follows the pipeline: the normalised text is
 * given character by character, split word by word, counted word by word,
 * ranked, cut and joined.
 */
module Scenarios {
  import opened Text
  import opened Frequency
  import opened Ranking
  import opened Summarizer

  /** One more word of the stream is one more `counter[w] += 1`. */
  lemma TallyStep(ws: seq<Word>, k: nat)
    requires k < |ws|
    ensures Tally(ws[..k + 1]) == Bump(Tally(ws[..k]), ws[k])
  {
    var p := ws[..k + 1];
    assert p[..|p| - 1] == ws[..k];
    assert p[|p| - 1] == ws[k];
  }

  /**
   * The sort moves entries when counts rise: for a table such as
   * `[a: 1, b: 2, c: 2]`, the two entries of equal count go in front of the
   * smaller one and keep their own order, as a stable sort by descending
   * count must.
   */
  lemma SortMovesTiesStably(a: Entry, b: Entry, c: Entry)
    requires a.count < b.count && b.count == c.count
    ensures SortByCount([a, b, c]) == [b, c, a]
  {
    SortTwoInOrder(b, c);
    InsertBehindTwo(a, b, c);
    assert [a, b, c][1..] == [b, c];
  }

  /** Two entries whose counts already descend stay as they are. */
  lemma SortTwoInOrder(b: Entry, c: Entry)
    requires b.count >= c.count
    ensures SortByCount([b, c]) == [b, c]
  {
    assert [c][1..] == [];
    assert [b, c][1..] == [c];
  }

  /** An entry below two others is inserted behind both. */
  lemma InsertBehindTwo(a: Entry, b: Entry, c: Entry)
    requires a.count < b.count && a.count < c.count
    ensures Insert(a, [b, c]) == [b, c, a]
  {
    InsertBehindOne(a, c);
    assert [b, c][1..] == [c];
    assert Insert(a, [b, c]) == [b] + Insert(a, [c]);
    assert [b] + [c, a] == [b, c, a];
  }

  /** An entry below another is inserted behind it. */
  lemma InsertBehindOne(a: Entry, c: Entry)
    requires a.count < c.count
    ensures Insert(a, [c]) == [c, a]
  {
    assert [c][1..] == [];
    assert Insert(a, [c]) == [c] + Insert(a, []);
  }

  // `summarize_text("the cat sat on the mat the cat ran", 2)` is `"the cat"`: "the" occurs three times and "cat" twice, every other word once.

  const MatText: string := "the cat sat on the mat the cat ran"
  const MatWords: seq<Word> := ["the", "cat", "sat", "on", "the", "mat", "the", "cat", "ran"]
  const MatTable: seq<Entry> := [Entry("the", 3), Entry("cat", 2), Entry("sat", 1), Entry("on", 1), Entry("mat", 1), Entry("ran", 1)]

  /** The normalised text, character by character. */
  predicate IsMatClean(s: string) {
    && |s| == 34
    && s[0] == 't' && s[1] == 'h' && s[2] == 'e' && s[3] == ' ' && s[4] == 'c' && s[5] == 'a'
    && s[6] == 't' && s[7] == ' ' && s[8] == 's' && s[9] == 'a' && s[10] == 't' && s[11] == ' '
    && s[12] == 'o' && s[13] == 'n' && s[14] == ' ' && s[15] == 't' && s[16] == 'h' && s[17] == 'e'
    && s[18] == ' ' && s[19] == 'm' && s[20] == 'a' && s[21] == 't' && s[22] == ' ' && s[23] == 't'
    && s[24] == 'h' && s[25] == 'e' && s[26] == ' ' && s[27] == 'c' && s[28] == 'a' && s[29] == 't'
    && s[30] == ' ' && s[31] == 'r' && s[32] == 'a' && s[33] == 'n'
  }

  /** A text that is already written in the normalised alphabet normalises to itself. */
  lemma MatNormalizedOf(t: string)
    requires IsMatClean(t)
    ensures IsMatClean(Normalize(t))
  {
  }

  /** Normalising the text gives the characters above. */
  lemma MatNormalized()
    ensures IsMatClean(Normalize(MatText))
  {
    assert IsMatClean(MatText);
    MatNormalizedOf(MatText);
  }

  /** The words from each word's first character on, one lemma per word. */
  lemma MatFrom31(s: string)
    requires IsMatClean(s)
    ensures Words(s[31..]) == ["ran"]
  {
    assert s[34..] == [];
    WordsAtWord(s, 31, 34);
    assert s[31..34] == "ran";
  }

  lemma MatFrom27(s: string)
    requires IsMatClean(s)
    ensures Words(s[27..]) == ["cat", "ran"]
  {
    MatFrom31(s);
    WordsAtSpace(s, 30);
    WordsAtWord(s, 27, 30);
    assert s[27..30] == "cat";
  }

  lemma MatFrom23(s: string)
    requires IsMatClean(s)
    ensures Words(s[23..]) == ["the", "cat", "ran"]
  {
    MatFrom27(s);
    WordsAtSpace(s, 26);
    WordsAtWord(s, 23, 26);
    assert s[23..26] == "the";
  }

  lemma MatFrom19(s: string)
    requires IsMatClean(s)
    ensures Words(s[19..]) == ["mat", "the", "cat", "ran"]
  {
    MatFrom23(s);
    WordsAtSpace(s, 22);
    WordsAtWord(s, 19, 22);
    assert s[19..22] == "mat";
  }

  lemma MatFrom15(s: string)
    requires IsMatClean(s)
    ensures Words(s[15..]) == ["the", "mat", "the", "cat", "ran"]
  {
    MatFrom19(s);
    WordsAtSpace(s, 18);
    WordsAtWord(s, 15, 18);
    assert s[15..18] == "the";
  }

  lemma MatFrom12(s: string)
    requires IsMatClean(s)
    ensures Words(s[12..]) == ["on", "the", "mat", "the", "cat", "ran"]
  {
    MatFrom15(s);
    WordsAtSpace(s, 14);
    WordsAtWord(s, 12, 14);
    assert s[12..14] == "on";
  }

  lemma MatFrom8(s: string)
    requires IsMatClean(s)
    ensures Words(s[8..]) == ["sat", "on", "the", "mat", "the", "cat", "ran"]
  {
    MatFrom12(s);
    WordsAtSpace(s, 11);
    WordsAtWord(s, 8, 11);
    assert s[8..11] == "sat";
  }

  lemma MatFrom4(s: string)
    requires IsMatClean(s)
    ensures Words(s[4..]) == ["cat", "sat", "on", "the", "mat", "the", "cat", "ran"]
  {
    MatFrom8(s);
    WordsAtSpace(s, 7);
    WordsAtWord(s, 4, 7);
    assert s[4..7] == "cat";
  }

  lemma MatFrom0(s: string)
    requires IsMatClean(s)
    ensures Words(s[0..]) == ["the", "cat", "sat", "on", "the", "mat", "the", "cat", "ran"]
  {
    MatFrom4(s);
    WordsAtSpace(s, 3);
    WordsAtWord(s, 0, 3);
    assert s[0..3] == "the";
  }

  /** Splitting the normalised text gives its nine words. */
  lemma MatSplit(s: string)
    requires IsMatClean(s)
    ensures Words(s) == MatWords
  {
    MatFrom0(s);
    assert s[0..] == s;
  }

  /** The word stream of the text. */
  lemma MatStream()
    ensures Stream(MatText) == MatWords
  {
    MatNormalized();
    MatSplit(Normalize(MatText));
  }

  /** A word stream that is, word by word, the one of the text. */
  predicate IsMatStream(ws: seq<Word>) {
    && |ws| == 9
    && ws[0] == "the" && ws[1] == "cat" && ws[2] == "sat" && ws[3] == "on" && ws[4] == "the" && ws[5] == "mat" && ws[6] == "the" && ws[7] == "cat" && ws[8] == "ran"
  }

  /** The words of the text are the ones `IsMatStream` lists. */
  lemma MatWordsListed()
    ensures IsMatStream(MatWords)
  {
  }

  /** The frequency table of the first `k` words, one lemma per word. */
  lemma MatTally1(ws: seq<Word>)
    requires IsMatStream(ws)
    ensures Tally(ws[..1]) == [Entry("the", 1)]
  {
    TallyStep(ws, 0);
    assert ws[..0] == [];
  }

  lemma MatBump2()
    ensures Bump([Entry("the", 1)], "cat") == [Entry("the", 1), Entry("cat", 1)]
  {
  }

  lemma MatTally2(ws: seq<Word>)
    requires IsMatStream(ws)
    ensures Tally(ws[..2]) == [Entry("the", 1), Entry("cat", 1)]
  {
    MatTally1(ws);
    MatBump2();
    TallyStep(ws, 1);
  }

  lemma MatBump3()
    ensures Bump([Entry("the", 1), Entry("cat", 1)], "sat") == [Entry("the", 1), Entry("cat", 1), Entry("sat", 1)]
  {
  }

  lemma MatTally3(ws: seq<Word>)
    requires IsMatStream(ws)
    ensures Tally(ws[..3]) == [Entry("the", 1), Entry("cat", 1), Entry("sat", 1)]
  {
    MatTally2(ws);
    MatBump3();
    TallyStep(ws, 2);
  }

  lemma MatBump4()
    ensures Bump([Entry("the", 1), Entry("cat", 1), Entry("sat", 1)], "on") == [Entry("the", 1), Entry("cat", 1), Entry("sat", 1), Entry("on", 1)]
  {
  }

  lemma MatTally4(ws: seq<Word>)
    requires IsMatStream(ws)
    ensures Tally(ws[..4]) == [Entry("the", 1), Entry("cat", 1), Entry("sat", 1), Entry("on", 1)]
  {
    MatTally3(ws);
    MatBump4();
    TallyStep(ws, 3);
  }

  lemma MatBump5()
    ensures Bump([Entry("the", 1), Entry("cat", 1), Entry("sat", 1), Entry("on", 1)], "the") == [Entry("the", 2), Entry("cat", 1), Entry("sat", 1), Entry("on", 1)]
  {
    BumpAt([Entry("the", 1), Entry("cat", 1), Entry("sat", 1), Entry("on", 1)], "the", 0);
  }

  lemma MatTally5(ws: seq<Word>)
    requires IsMatStream(ws)
    ensures Tally(ws[..5]) == [Entry("the", 2), Entry("cat", 1), Entry("sat", 1), Entry("on", 1)]
  {
    MatTally4(ws);
    MatBump5();
    TallyStep(ws, 4);
  }

  lemma MatBump6()
    ensures Bump([Entry("the", 2), Entry("cat", 1), Entry("sat", 1), Entry("on", 1)], "mat") == [Entry("the", 2), Entry("cat", 1), Entry("sat", 1), Entry("on", 1), Entry("mat", 1)]
  {
  }

  lemma MatTally6(ws: seq<Word>)
    requires IsMatStream(ws)
    ensures Tally(ws[..6]) == [Entry("the", 2), Entry("cat", 1), Entry("sat", 1), Entry("on", 1), Entry("mat", 1)]
  {
    MatTally5(ws);
    MatBump6();
    TallyStep(ws, 5);
  }

  lemma MatBump7()
    ensures Bump([Entry("the", 2), Entry("cat", 1), Entry("sat", 1), Entry("on", 1), Entry("mat", 1)], "the") == [Entry("the", 3), Entry("cat", 1), Entry("sat", 1), Entry("on", 1), Entry("mat", 1)]
  {
    BumpAt([Entry("the", 2), Entry("cat", 1), Entry("sat", 1), Entry("on", 1), Entry("mat", 1)], "the", 0);
  }

  lemma MatTally7(ws: seq<Word>)
    requires IsMatStream(ws)
    ensures Tally(ws[..7]) == [Entry("the", 3), Entry("cat", 1), Entry("sat", 1), Entry("on", 1), Entry("mat", 1)]
  {
    MatTally6(ws);
    MatBump7();
    TallyStep(ws, 6);
  }

  lemma MatBump8()
    ensures Bump([Entry("the", 3), Entry("cat", 1), Entry("sat", 1), Entry("on", 1), Entry("mat", 1)], "cat") == [Entry("the", 3), Entry("cat", 2), Entry("sat", 1), Entry("on", 1), Entry("mat", 1)]
  {
    BumpAt([Entry("the", 3), Entry("cat", 1), Entry("sat", 1), Entry("on", 1), Entry("mat", 1)], "cat", 1);
  }

  lemma MatTally8(ws: seq<Word>)
    requires IsMatStream(ws)
    ensures Tally(ws[..8]) == [Entry("the", 3), Entry("cat", 2), Entry("sat", 1), Entry("on", 1), Entry("mat", 1)]
  {
    MatTally7(ws);
    MatBump8();
    TallyStep(ws, 7);
  }

  lemma MatBump9()
    ensures Bump([Entry("the", 3), Entry("cat", 2), Entry("sat", 1), Entry("on", 1), Entry("mat", 1)], "ran") == [Entry("the", 3), Entry("cat", 2), Entry("sat", 1), Entry("on", 1), Entry("mat", 1), Entry("ran", 1)]
  {
  }

  lemma MatTally9(ws: seq<Word>)
    requires IsMatStream(ws)
    ensures Tally(ws[..9]) == [Entry("the", 3), Entry("cat", 2), Entry("sat", 1), Entry("on", 1), Entry("mat", 1), Entry("ran", 1)]
  {
    MatTally8(ws);
    MatBump9();
    TallyStep(ws, 8);
  }

  /** `Counter` of the word stream. */
  lemma MatTally(ws: seq<Word>)
    requires IsMatStream(ws)
    ensures Tally(ws) == MatTable
  {
    MatTally9(ws);
    assert ws[..9] == ws;
  }

  /** The table already lists its counts in descending order. */
  lemma MatTableDescending()
    ensures CountsDescending(MatTable)
  {
  }

  /** Sorting the table moves nothing. */
  lemma MatRanking(text: string)
    requires IsMatStream(Stream(text))
    ensures RankedTable(text) == MatTable
  {
    MatTally(Stream(text));
    MatTableDescending();
    SortDescendingUnchanged(MatTable);
  }

  /** The words kept from the ranking. */
  lemma MatKept(r: seq<Entry>)
    requires r == MatTable
    ensures Take(Keys(r), 2) == ["the", "cat"]
  {
  }

  /** The words joined. */
  lemma MatJoined()
    ensures Join(["the", "cat"]) == "the cat"
  {
  }

  /** Any text with this word stream is summarised as `"the cat"`. */
  lemma MatSummaryOfStream(text: string)
    requires IsMatStream(Stream(text))
    ensures Summarize(text, 2) == "the cat"
  {
    MatRanking(text);
    MatKept(RankedTable(text));
    assert Summarize(text, 2) == Join(TopWords(text, 2));
    MatJoined();
  }

  lemma MatSummary()
    ensures Summarize("the cat sat on the mat the cat ran", 2) == "the cat"
  {
    MatStream();
    MatWordsListed();
    MatSummaryOfStream(MatText);
  }

  // `summarize_text("to be or not to be", 2)` is `"to be"`: "to" and "be" both occur twice; "to" is seen first and stays first.

  const HamletText: string := "to be or not to be"
  const HamletWords: seq<Word> := ["to", "be", "or", "not", "to", "be"]
  const HamletTable: seq<Entry> := [Entry("to", 2), Entry("be", 2), Entry("or", 1), Entry("not", 1)]

  /** The normalised text, character by character. */
  predicate IsHamletClean(s: string) {
    && |s| == 18
    && s[0] == 't' && s[1] == 'o' && s[2] == ' ' && s[3] == 'b' && s[4] == 'e' && s[5] == ' '
    && s[6] == 'o' && s[7] == 'r' && s[8] == ' ' && s[9] == 'n' && s[10] == 'o' && s[11] == 't'
    && s[12] == ' ' && s[13] == 't' && s[14] == 'o' && s[15] == ' ' && s[16] == 'b' && s[17] == 'e'
  }

  /** A text that is already written in the normalised alphabet normalises to itself. */
  lemma HamletNormalizedOf(t: string)
    requires IsHamletClean(t)
    ensures IsHamletClean(Normalize(t))
  {
  }

  /** Normalising the text gives the characters above. */
  lemma HamletNormalized()
    ensures IsHamletClean(Normalize(HamletText))
  {
    assert IsHamletClean(HamletText);
    HamletNormalizedOf(HamletText);
  }

  /** The words from each word's first character on, one lemma per word. */
  lemma HamletFrom16(s: string)
    requires IsHamletClean(s)
    ensures Words(s[16..]) == ["be"]
  {
    assert s[18..] == [];
    WordsAtWord(s, 16, 18);
    assert s[16..18] == "be";
  }

  lemma HamletFrom13(s: string)
    requires IsHamletClean(s)
    ensures Words(s[13..]) == ["to", "be"]
  {
    HamletFrom16(s);
    WordsAtSpace(s, 15);
    WordsAtWord(s, 13, 15);
    assert s[13..15] == "to";
  }

  lemma HamletFrom9(s: string)
    requires IsHamletClean(s)
    ensures Words(s[9..]) == ["not", "to", "be"]
  {
    HamletFrom13(s);
    WordsAtSpace(s, 12);
    WordsAtWord(s, 9, 12);
    assert s[9..12] == "not";
  }

  lemma HamletFrom6(s: string)
    requires IsHamletClean(s)
    ensures Words(s[6..]) == ["or", "not", "to", "be"]
  {
    HamletFrom9(s);
    WordsAtSpace(s, 8);
    WordsAtWord(s, 6, 8);
    assert s[6..8] == "or";
  }

  lemma HamletFrom3(s: string)
    requires IsHamletClean(s)
    ensures Words(s[3..]) == ["be", "or", "not", "to", "be"]
  {
    HamletFrom6(s);
    WordsAtSpace(s, 5);
    WordsAtWord(s, 3, 5);
    assert s[3..5] == "be";
  }

  lemma HamletFrom0(s: string)
    requires IsHamletClean(s)
    ensures Words(s[0..]) == ["to", "be", "or", "not", "to", "be"]
  {
    HamletFrom3(s);
    WordsAtSpace(s, 2);
    WordsAtWord(s, 0, 2);
    assert s[0..2] == "to";
  }

  /** Splitting the normalised text gives its six words. */
  lemma HamletSplit(s: string)
    requires IsHamletClean(s)
    ensures Words(s) == HamletWords
  {
    HamletFrom0(s);
    assert s[0..] == s;
  }

  /** The word stream of the text. */
  lemma HamletStream()
    ensures Stream(HamletText) == HamletWords
  {
    HamletNormalized();
    HamletSplit(Normalize(HamletText));
  }

  /** A word stream that is, word by word, the one of the text. */
  predicate IsHamletStream(ws: seq<Word>) {
    && |ws| == 6
    && ws[0] == "to" && ws[1] == "be" && ws[2] == "or" && ws[3] == "not" && ws[4] == "to" && ws[5] == "be"
  }

  /** The words of the text are the ones `IsHamletStream` lists. */
  lemma HamletWordsListed()
    ensures IsHamletStream(HamletWords)
  {
  }

  /** The frequency table of the first `k` words, one lemma per word. */
  lemma HamletTally1(ws: seq<Word>)
    requires IsHamletStream(ws)
    ensures Tally(ws[..1]) == [Entry("to", 1)]
  {
    TallyStep(ws, 0);
    assert ws[..0] == [];
  }

  lemma HamletBump2()
    ensures Bump([Entry("to", 1)], "be") == [Entry("to", 1), Entry("be", 1)]
  {
  }

  lemma HamletTally2(ws: seq<Word>)
    requires IsHamletStream(ws)
    ensures Tally(ws[..2]) == [Entry("to", 1), Entry("be", 1)]
  {
    HamletTally1(ws);
    HamletBump2();
    TallyStep(ws, 1);
  }

  lemma HamletBump3()
    ensures Bump([Entry("to", 1), Entry("be", 1)], "or") == [Entry("to", 1), Entry("be", 1), Entry("or", 1)]
  {
  }

  lemma HamletTally3(ws: seq<Word>)
    requires IsHamletStream(ws)
    ensures Tally(ws[..3]) == [Entry("to", 1), Entry("be", 1), Entry("or", 1)]
  {
    HamletTally2(ws);
    HamletBump3();
    TallyStep(ws, 2);
  }

  lemma HamletBump4()
    ensures Bump([Entry("to", 1), Entry("be", 1), Entry("or", 1)], "not") == [Entry("to", 1), Entry("be", 1), Entry("or", 1), Entry("not", 1)]
  {
  }

  lemma HamletTally4(ws: seq<Word>)
    requires IsHamletStream(ws)
    ensures Tally(ws[..4]) == [Entry("to", 1), Entry("be", 1), Entry("or", 1), Entry("not", 1)]
  {
    HamletTally3(ws);
    HamletBump4();
    TallyStep(ws, 3);
  }

  lemma HamletBump5()
    ensures Bump([Entry("to", 1), Entry("be", 1), Entry("or", 1), Entry("not", 1)], "to") == [Entry("to", 2), Entry("be", 1), Entry("or", 1), Entry("not", 1)]
  {
    BumpAt([Entry("to", 1), Entry("be", 1), Entry("or", 1), Entry("not", 1)], "to", 0);
  }

  lemma HamletTally5(ws: seq<Word>)
    requires IsHamletStream(ws)
    ensures Tally(ws[..5]) == [Entry("to", 2), Entry("be", 1), Entry("or", 1), Entry("not", 1)]
  {
    HamletTally4(ws);
    HamletBump5();
    TallyStep(ws, 4);
  }

  lemma HamletBump6()
    ensures Bump([Entry("to", 2), Entry("be", 1), Entry("or", 1), Entry("not", 1)], "be") == [Entry("to", 2), Entry("be", 2), Entry("or", 1), Entry("not", 1)]
  {
    BumpAt([Entry("to", 2), Entry("be", 1), Entry("or", 1), Entry("not", 1)], "be", 1);
  }

  lemma HamletTally6(ws: seq<Word>)
    requires IsHamletStream(ws)
    ensures Tally(ws[..6]) == [Entry("to", 2), Entry("be", 2), Entry("or", 1), Entry("not", 1)]
  {
    HamletTally5(ws);
    HamletBump6();
    TallyStep(ws, 5);
  }

  /** `Counter` of the word stream. */
  lemma HamletTally(ws: seq<Word>)
    requires IsHamletStream(ws)
    ensures Tally(ws) == HamletTable
  {
    HamletTally6(ws);
    assert ws[..6] == ws;
  }

  /** The table already lists its counts in descending order. */
  lemma HamletTableDescending()
    ensures CountsDescending(HamletTable)
  {
  }

  /** Sorting the table moves nothing. */
  lemma HamletRanking(text: string)
    requires IsHamletStream(Stream(text))
    ensures RankedTable(text) == HamletTable
  {
    HamletTally(Stream(text));
    HamletTableDescending();
    SortDescendingUnchanged(HamletTable);
  }

  /** The words kept from the ranking. */
  lemma HamletKept(r: seq<Entry>)
    requires r == HamletTable
    ensures Take(Keys(r), 2) == ["to", "be"]
  {
  }

  /** The words joined. */
  lemma HamletJoined()
    ensures Join(["to", "be"]) == "to be"
  {
  }

  /** Any text with this word stream is summarised as `"to be"`. */
  lemma HamletSummaryOfStream(text: string)
    requires IsHamletStream(Stream(text))
    ensures Summarize(text, 2) == "to be"
  {
    HamletRanking(text);
    HamletKept(RankedTable(text));
    assert Summarize(text, 2) == Join(TopWords(text, 2));
    HamletJoined();
  }

  lemma HamletSummary()
    ensures Summarize("to be or not to be", 2) == "to be"
  {
    HamletStream();
    HamletWordsListed();
    HamletSummaryOfStream(HamletText);
  }

  // `summarize_text("Cat cat CAT dog", 1)` is `"cat"`: the three spellings of "cat" are one word.

  const CatsText: string := "Cat cat CAT dog"
  const CatsWords: seq<Word> := ["cat", "cat", "cat", "dog"]
  const CatsTable: seq<Entry> := [Entry("cat", 3), Entry("dog", 1)]

  /** The normalised text, character by character. */
  predicate IsCatsClean(s: string) {
    && |s| == 15
    && s[0] == 'c' && s[1] == 'a' && s[2] == 't' && s[3] == ' ' && s[4] == 'c' && s[5] == 'a'
    && s[6] == 't' && s[7] == ' ' && s[8] == 'c' && s[9] == 'a' && s[10] == 't' && s[11] == ' '
    && s[12] == 'd' && s[13] == 'o' && s[14] == 'g'
  }

  /** Normalising the text gives the characters above. */
  lemma CatsNormalized()
    ensures IsCatsClean(Normalize(CatsText))
  {
  }

  /** The words from each word's first character on, one lemma per word. */
  lemma CatsFrom12(s: string)
    requires IsCatsClean(s)
    ensures Words(s[12..]) == ["dog"]
  {
    assert s[15..] == [];
    WordsAtWord(s, 12, 15);
    assert s[12..15] == "dog";
  }

  lemma CatsFrom8(s: string)
    requires IsCatsClean(s)
    ensures Words(s[8..]) == ["cat", "dog"]
  {
    CatsFrom12(s);
    WordsAtSpace(s, 11);
    WordsAtWord(s, 8, 11);
    assert s[8..11] == "cat";
  }

  lemma CatsFrom4(s: string)
    requires IsCatsClean(s)
    ensures Words(s[4..]) == ["cat", "cat", "dog"]
  {
    CatsFrom8(s);
    WordsAtSpace(s, 7);
    WordsAtWord(s, 4, 7);
    assert s[4..7] == "cat";
  }

  lemma CatsFrom0(s: string)
    requires IsCatsClean(s)
    ensures Words(s[0..]) == ["cat", "cat", "cat", "dog"]
  {
    CatsFrom4(s);
    WordsAtSpace(s, 3);
    WordsAtWord(s, 0, 3);
    assert s[0..3] == "cat";
  }

  /** Splitting the normalised text gives its four words. */
  lemma CatsSplit(s: string)
    requires IsCatsClean(s)
    ensures Words(s) == CatsWords
  {
    CatsFrom0(s);
    assert s[0..] == s;
  }

  /** The word stream of the text. */
  lemma CatsStream()
    ensures Stream(CatsText) == CatsWords
  {
    CatsNormalized();
    CatsSplit(Normalize(CatsText));
  }

  /** A word stream that is, word by word, the one of the text. */
  predicate IsCatsStream(ws: seq<Word>) {
    && |ws| == 4
    && ws[0] == "cat" && ws[1] == "cat" && ws[2] == "cat" && ws[3] == "dog"
  }

  /** The words of the text are the ones `IsCatsStream` lists. */
  lemma CatsWordsListed()
    ensures IsCatsStream(CatsWords)
  {
  }

  /** The frequency table of the first `k` words, one lemma per word. */
  lemma CatsTally1(ws: seq<Word>)
    requires IsCatsStream(ws)
    ensures Tally(ws[..1]) == [Entry("cat", 1)]
  {
    TallyStep(ws, 0);
    assert ws[..0] == [];
  }

  lemma CatsBump2()
    ensures Bump([Entry("cat", 1)], "cat") == [Entry("cat", 2)]
  {
    BumpAt([Entry("cat", 1)], "cat", 0);
  }

  lemma CatsTally2(ws: seq<Word>)
    requires IsCatsStream(ws)
    ensures Tally(ws[..2]) == [Entry("cat", 2)]
  {
    CatsTally1(ws);
    CatsBump2();
    TallyStep(ws, 1);
  }

  lemma CatsBump3()
    ensures Bump([Entry("cat", 2)], "cat") == [Entry("cat", 3)]
  {
    BumpAt([Entry("cat", 2)], "cat", 0);
  }

  lemma CatsTally3(ws: seq<Word>)
    requires IsCatsStream(ws)
    ensures Tally(ws[..3]) == [Entry("cat", 3)]
  {
    CatsTally2(ws);
    CatsBump3();
    TallyStep(ws, 2);
  }

  lemma CatsBump4()
    ensures Bump([Entry("cat", 3)], "dog") == [Entry("cat", 3), Entry("dog", 1)]
  {
  }

  lemma CatsTally4(ws: seq<Word>)
    requires IsCatsStream(ws)
    ensures Tally(ws[..4]) == [Entry("cat", 3), Entry("dog", 1)]
  {
    CatsTally3(ws);
    CatsBump4();
    TallyStep(ws, 3);
  }

  /** `Counter` of the word stream. */
  lemma CatsTally(ws: seq<Word>)
    requires IsCatsStream(ws)
    ensures Tally(ws) == CatsTable
  {
    CatsTally4(ws);
    assert ws[..4] == ws;
  }

  /** The table already lists its counts in descending order. */
  lemma CatsTableDescending()
    ensures CountsDescending(CatsTable)
  {
  }

  /** Sorting the table moves nothing. */
  lemma CatsRanking(text: string)
    requires IsCatsStream(Stream(text))
    ensures RankedTable(text) == CatsTable
  {
    CatsTally(Stream(text));
    CatsTableDescending();
    SortDescendingUnchanged(CatsTable);
  }

  /** The words kept from the ranking. */
  lemma CatsKept(r: seq<Entry>)
    requires r == CatsTable
    ensures Take(Keys(r), 1) == ["cat"]
  {
  }

  /** The words joined. */
  lemma CatsJoined()
    ensures Join(["cat"]) == "cat"
  {
  }

  /** Any text with this word stream is summarised as `"cat"`. */
  lemma CatsSummaryOfStream(text: string)
    requires IsCatsStream(Stream(text))
    ensures Summarize(text, 1) == "cat"
  {
    CatsRanking(text);
    CatsKept(RankedTable(text));
    assert Summarize(text, 1) == Join(TopWords(text, 1));
    CatsJoined();
  }

  lemma CatsSummary()
    ensures Summarize("Cat cat CAT dog", 1) == "cat"
  {
    CatsStream();
    CatsWordsListed();
    CatsSummaryOfStream(CatsText);
  }

  // `summarize_text("Hello, World! 123", 5)` is `"hello world"`: punctuation and digits only separate words; fewer words than asked for are all kept.

  const HelloText: string := "Hello, World! 123"
  const HelloWords: seq<Word> := ["hello", "world"]
  const HelloTable: seq<Entry> := [Entry("hello", 1), Entry("world", 1)]

  /** The normalised text, character by character. */
  predicate IsHelloClean(s: string) {
    && |s| == 17
    && s[0] == 'h' && s[1] == 'e' && s[2] == 'l' && s[3] == 'l' && s[4] == 'o' && s[5] == ' '
    && s[6] == ' ' && s[7] == 'w' && s[8] == 'o' && s[9] == 'r' && s[10] == 'l' && s[11] == 'd'
    && s[12] == ' ' && s[13] == ' ' && s[14] == ' ' && s[15] == ' ' && s[16] == ' '
  }

  /** Normalising the text gives the characters above. */
  lemma HelloNormalized()
    ensures IsHelloClean(Normalize(HelloText))
  {
  }

  /** The words from each word's first character on, one lemma per word. */
  lemma HelloFrom7(s: string)
    requires IsHelloClean(s)
    ensures Words(s[7..]) == ["world"]
  {
    WordsOfBlank(s[12..]);
    WordsAtWord(s, 7, 12);
    assert s[7..12] == "world";
  }

  lemma HelloFrom0(s: string)
    requires IsHelloClean(s)
    ensures Words(s[0..]) == ["hello", "world"]
  {
    HelloFrom7(s);
    WordsAtSpace(s, 5);
    WordsAtSpace(s, 6);
    WordsAtWord(s, 0, 5);
    assert s[0..5] == "hello";
  }

  /** Splitting the normalised text gives its two words. */
  lemma HelloSplit(s: string)
    requires IsHelloClean(s)
    ensures Words(s) == HelloWords
  {
    HelloFrom0(s);
    assert s[0..] == s;
  }

  /** The word stream of the text. */
  lemma HelloStream()
    ensures Stream(HelloText) == HelloWords
  {
    HelloNormalized();
    HelloSplit(Normalize(HelloText));
  }

  /** A word stream that is, word by word, the one of the text. */
  predicate IsHelloStream(ws: seq<Word>) {
    && |ws| == 2
    && ws[0] == "hello" && ws[1] == "world"
  }

  /** The words of the text are the ones `IsHelloStream` lists. */
  lemma HelloWordsListed()
    ensures IsHelloStream(HelloWords)
  {
  }

  /** The frequency table of the first `k` words, one lemma per word. */
  lemma HelloTally1(ws: seq<Word>)
    requires IsHelloStream(ws)
    ensures Tally(ws[..1]) == [Entry("hello", 1)]
  {
    TallyStep(ws, 0);
    assert ws[..0] == [];
  }

  lemma HelloBump2()
    ensures Bump([Entry("hello", 1)], "world") == [Entry("hello", 1), Entry("world", 1)]
  {
  }

  lemma HelloTally2(ws: seq<Word>)
    requires IsHelloStream(ws)
    ensures Tally(ws[..2]) == [Entry("hello", 1), Entry("world", 1)]
  {
    HelloTally1(ws);
    HelloBump2();
    TallyStep(ws, 1);
  }

  /** `Counter` of the word stream. */
  lemma HelloTally(ws: seq<Word>)
    requires IsHelloStream(ws)
    ensures Tally(ws) == HelloTable
  {
    HelloTally2(ws);
    assert ws[..2] == ws;
  }

  /** The table already lists its counts in descending order. */
  lemma HelloTableDescending()
    ensures CountsDescending(HelloTable)
  {
  }

  /** Sorting the table moves nothing. */
  lemma HelloRanking(text: string)
    requires IsHelloStream(Stream(text))
    ensures RankedTable(text) == HelloTable
  {
    HelloTally(Stream(text));
    HelloTableDescending();
    SortDescendingUnchanged(HelloTable);
  }

  /** The words kept from the ranking. */
  lemma HelloKept(r: seq<Entry>)
    requires r == HelloTable
    ensures Take(Keys(r), 5) == ["hello", "world"]
  {
  }

  /** The words joined. */
  lemma HelloJoined()
    ensures Join(["hello", "world"]) == "hello world"
  {
  }

  /** Any text with this word stream is summarised as `"hello world"`. */
  lemma HelloSummaryOfStream(text: string)
    requires IsHelloStream(Stream(text))
    ensures Summarize(text, 5) == "hello world"
  {
    HelloRanking(text);
    HelloKept(RankedTable(text));
    assert Summarize(text, 5) == Join(TopWords(text, 5));
    HelloJoined();
  }

  lemma HelloSummary()
    ensures Summarize("Hello, World! 123", 5) == "hello world"
  {
    HelloStream();
    HelloWordsListed();
    HelloSummaryOfStream(HelloText);
  }

}
