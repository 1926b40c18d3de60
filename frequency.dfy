/**
 * The word-frequency table of the summarizer: `collections.Counter(words)`,
 * a dictionary from each distinct word to its number of occurrences whose
 * keys keep the order in which each word was first seen.
 */
module Frequency {
  import opened Text

  /** Number of occurrences of `w` in `ws`; it agrees with the multiset of `ws`. */
  function Count(ws: seq<Word>, w: Word): (c: nat)
    ensures c == multiset(ws)[w]
    ensures c <= |ws|
    ensures c > 0 <==> w in ws
  {
    if ws == [] then 0
    else
      var n := |ws| - 1;
      assert ws == ws[..n] + [ws[n]];
      Count(ws[..n], w) + (if ws[n] == w then 1 else 0)
  }

  /**
   * Position of the first occurrence of `w` in `ws`, or `|ws|` when it does
   * not occur.
   */
  function FirstIndex(ws: seq<Word>, w: Word): (i: nat)
    ensures i <= |ws|
    ensures i < |ws| <==> w in ws
    ensures i < |ws| ==> ws[i] == w && w !in ws[..i]
  {
    if ws == [] then 0
    else
      var n := |ws| - 1;
      if w in ws[..n] then FirstIndex(ws[..n], w)
      else if ws[n] == w then n
      else |ws|
  }

  /**
   * The distinct words of `ws` in the order of their first occurrence: each
   * word of `ws` once, and strictly increasing first positions along the list
   * (so no word twice).
   */
  function Distinct(ws: seq<Word>): (d: seq<Word>)
    ensures forall w :: w in d <==> w in ws
    ensures forall i, j :: 0 <= i < j < |d| ==> FirstIndex(ws, d[i]) < FirstIndex(ws, d[j])
  {
    if ws == [] then []
    else
      var n := |ws| - 1;
      var p, w := Distinct(ws[..n]), ws[n];
      assert ws == ws[..n] + [w];
      if w in p then p else p + [w]
  }

  /** The words of a frequency table, in the table's order (`list(counter)`). */
  function Keys(t: seq<Entry>): seq<Word> {
    seq(|t|, i requires 0 <= i < |t| => t[i].word)
  }

  /** One key of the table with its count. */
  datatype Entry = Entry(word: Word, count: nat)

  /** The dictionary invariant: no key appears twice. */
  predicate UniqueKeys(t: seq<Entry>) {
    forall i, j :: 0 <= i < j < |t| ==> t[i].word != t[j].word
  }

  /**
   * `counter[w] += 1` on a table whose keys are unique: an existing key keeps
   * its place and gains one, a new key goes to the end with count one.
   */
  function Bump(t: seq<Entry>, w: Word): (r: seq<Entry>)
    requires UniqueKeys(t)
    ensures w !in Keys(t) ==> r == t + [Entry(w, 1)]
    ensures w in Keys(t) ==> |r| == |t| && Keys(r) == Keys(t)
    ensures w in Keys(t) ==> forall i :: 0 <= i < |t| ==>
      r[i].count == t[i].count + (if t[i].word == w then 1 else 0)
  {
    var k := FirstIndex(Keys(t), w);
    if k < |t| then
      var r := t[k := Entry(w, t[k].count + 1)];
      assert Keys(t)[k] == t[k].word;
      assert forall i :: 0 <= i < |t| ==> Keys(r)[i] == Keys(t)[i];
      r
    else
      t + [Entry(w, 1)]
  }

  /** A key found at position `k` gains one in place; nothing else changes. */
  lemma BumpAt(t: seq<Entry>, w: Word, k: nat)
    requires UniqueKeys(t)
    requires k < |t| && t[k].word == w
    ensures Bump(t, w) == t[k := Entry(w, t[k].count + 1)]
  {
    assert Keys(t)[k] == w;
    var i := FirstIndex(Keys(t), w);
    assert Keys(t)[i] == t[i].word;
  }

  /**
   * What `Counter(ws)` must hold: the distinct words of `ws` as keys, in
   * first-seen order and each once, and with each key its number of occurrences.
   */
  predicate IsCounterOf(ws: seq<Word>, t: seq<Entry>) {
    && Keys(t) == Distinct(ws)
    && UniqueKeys(t)
    && (forall i :: 0 <= i < |t| ==> t[i].count == Count(ws, t[i].word))
  }

  /** A table keyed by the distinct words of a stream has no key twice. */
  lemma KeysOfDistinctUnique(ws: seq<Word>, t: seq<Entry>)
    requires Keys(t) == Distinct(ws)
    ensures UniqueKeys(t)
  {
    forall i, j | 0 <= i < j < |t| ensures t[i].word != t[j].word {
      assert Keys(t)[i] == t[i].word && Keys(t)[j] == t[j].word;
    }
  }

  /** Counting one more word adds it to the keys when it is new, and only then. */
  lemma BumpKeys(ws: seq<Word>, w: Word, t: seq<Entry>)
    requires IsCounterOf(ws, t)
    ensures Keys(Bump(t, w)) == Distinct(ws + [w])
  {
    var ws' := ws + [w];
    assert ws'[..|ws'| - 1] == ws;
    assert w !in Keys(t) ==> Keys(Bump(t, w)) == Keys(t) + [w];
  }

  /** Counting one more word adds one to its own count and leaves the others. */
  lemma BumpCountsEach(ws: seq<Word>, w: Word, t: seq<Entry>)
    requires IsCounterOf(ws, t)
    ensures forall i :: 0 <= i < |Bump(t, w)| ==> Bump(t, w)[i].count == Count(ws + [w], Bump(t, w)[i].word)
  {
    var ws', r := ws + [w], Bump(t, w);
    assert ws'[..|ws'| - 1] == ws;
    forall i | 0 <= i < |r| ensures r[i].count == Count(ws', r[i].word) {
      if i < |t| {
        assert Keys(t)[i] == t[i].word && Keys(r)[i] == r[i].word;
      }
    }
  }

  /** Counting one more word turns the table of `ws` into the table of `ws + [w]`. */
  lemma {:induction false} BumpCounts(ws: seq<Word>, w: Word, t: seq<Entry>)
    requires IsCounterOf(ws, t)
    ensures IsCounterOf(ws + [w], Bump(t, w))
  {
    BumpKeys(ws, w, t);
    BumpCountsEach(ws, w, t);
    KeysOfDistinctUnique(ws + [w], Bump(t, w));
  }

  /**
   * `Counter(ws)`, built one word at a time as the dictionary is. It meets
   * the specification above.
   */
  function Tally(ws: seq<Word>): (t: seq<Entry>)
    ensures IsCounterOf(ws, t)
  {
    if ws == [] then []
    else
      var n := |ws| - 1;
      assert ws == ws[..n] + [ws[n]];
      BumpCounts(ws[..n], ws[n], Tally(ws[..n]));
      Bump(Tally(ws[..n]), ws[n])
  }
}
