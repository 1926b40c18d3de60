/**
 * `sorted(counter, key=counter.get, reverse=True)`: the keys of the frequency
 * table ordered by descending count. Python's sort is stable also when
 * reversed, so keys of equal count keep their order in the table.
 */
module Ranking {
  import opened Text
  import opened Frequency

  /** Counts never increase along `s`. */
  predicate CountsDescending(s: seq<Entry>) {
    forall i, j :: 0 <= i < j < |s| ==> s[i].count >= s[j].count
  }

  /**
   * Places `e` before the first entry whose count is not above its own. When
   * `e` comes before every entry of `s` in the table, this keeps it ahead of
   * the entries with the same count, which is what stability demands.
   */
  function Insert(e: Entry, s: seq<Entry>): (r: seq<Entry>)
    ensures multiset(r) == multiset(s) + multiset{e}
    ensures r[0] == e || (s != [] && r[0] == s[0])
  {
    if s == [] || e.count >= s[0].count then [e] + s
    else
      assert s == [s[0]] + s[1..];
      [s[0]] + Insert(e, s[1..])
  }

  /** Inserting into a list with descending counts keeps the counts descending. */
  lemma {:induction false} InsertDescending(e: Entry, s: seq<Entry>)
    requires CountsDescending(s)
    ensures CountsDescending(Insert(e, s))
  {
    if s != [] && e.count < s[0].count {
      var rest := Insert(e, s[1..]);
      InsertDescending(e, s[1..]);
      assert rest[0].count <= s[0].count by {
        if rest[0] != e {
          assert rest[0] == s[1];
        }
      }
      var r := [s[0]] + rest;
      forall i, j | 0 <= i < j < |r| ensures r[i].count >= r[j].count {
        if i == 0 {
          assert r[j] == rest[j - 1];
          assert rest[0].count >= rest[j - 1].count;
        } else {
          assert r[i] == rest[i - 1] && r[j] == rest[j - 1];
        }
      }
    } else if s != [] {
      var r := [e] + s;
      forall i, j | 0 <= i < j < |r| ensures r[i].count >= r[j].count {
        if i == 0 {
          assert r[j] == s[j - 1];
          assert s[0].count >= s[j - 1].count;
        } else {
          assert r[i] == s[i - 1] && r[j] == s[j - 1];
        }
      }
    }
  }

  /**
   * Stable sort by descending count: a permutation of the table whose counts
   * never increase.
   */
  function SortByCount(t: seq<Entry>): (r: seq<Entry>)
    ensures multiset(r) == multiset(t)
    ensures |r| == |t|
    ensures CountsDescending(r)
  {
    if t == [] then []
    else
      assert t == [t[0]] + t[1..];
      InsertDescending(t[0], SortByCount(t[1..]));
      Insert(t[0], SortByCount(t[1..]))
  }

  /** A table whose counts already descend is left as it is: nothing moves. */
  lemma {:induction false} SortDescendingUnchanged(t: seq<Entry>)
    requires CountsDescending(t)
    ensures SortByCount(t) == t
  {
    if t != [] {
      assert CountsDescending(t[1..]) by {
        forall i, j | 0 <= i < j < |t[1..]| ensures t[1..][i].count >= t[1..][j].count {
          assert t[1..][i] == t[i + 1] && t[1..][j] == t[j + 1];
        }
      }
      SortDescendingUnchanged(t[1..]);
      assert t == [t[0]] + t[1..];
    }
  }

  /** Sorting twice is sorting once. */
  lemma SortByCountIdempotent(t: seq<Entry>)
    ensures SortByCount(SortByCount(t)) == SortByCount(t)
  {
    SortDescendingUnchanged(SortByCount(t));
  }

  /**
   * The ranking order of the summarizer over the word stream `ws`: a higher
   * count first, and on equal counts the word seen first in `ws` first.
   */
  predicate Precedes(ws: seq<Word>, a: Entry, b: Entry) {
    a.count > b.count || (a.count == b.count && FirstIndex(ws, a.word) < FirstIndex(ws, b.word))
  }

  /** Every entry of `s` precedes every later entry. */
  predicate Ranked(ws: seq<Word>, s: seq<Entry>) {
    forall i, j :: 0 <= i < j < |s| ==> Precedes(ws, s[i], s[j])
  }

  /** The table lists its words by strictly increasing first occurrence in `ws`. */
  predicate InFirstSeenOrder(ws: seq<Word>, t: seq<Entry>) {
    forall i, j :: 0 <= i < j < |t| ==> FirstIndex(ws, t[i].word) < FirstIndex(ws, t[j].word)
  }

  /** An entry that precedes everything in a ranked list can be put in front of it. */
  lemma ConsRanked(ws: seq<Word>, e: Entry, s: seq<Entry>)
    requires Ranked(ws, s)
    requires forall x :: x in s ==> Precedes(ws, e, x)
    ensures Ranked(ws, [e] + s)
  {
    var r := [e] + s;
    forall i, j | 0 <= i < j < |r| ensures Precedes(ws, r[i], r[j]) {
      assert r[j] == s[j - 1];
      if i > 0 {
        assert r[i] == s[i - 1];
      }
    }
  }

  /** The tail of a ranked list is ranked. */
  lemma RankedTail(ws: seq<Word>, s: seq<Entry>)
    requires Ranked(ws, s) && s != []
    ensures Ranked(ws, s[1..])
  {
    forall i, j | 0 <= i < j < |s[1..]| ensures Precedes(ws, s[1..][i], s[1..][j]) {
      assert s[1..][i] == s[i + 1] && s[1..][j] == s[j + 1];
    }
  }

  /**
   * An entry whose count is not below the head's, and which was seen before
   * everything in a ranked list, goes in front of it.
   */
  lemma InsertFrontRanked(ws: seq<Word>, e: Entry, s: seq<Entry>)
    requires Ranked(ws, s)
    requires s == [] || e.count >= s[0].count
    requires forall x :: x in s ==> FirstIndex(ws, e.word) < FirstIndex(ws, x.word)
    ensures Ranked(ws, [e] + s)
  {
    forall x | x in s ensures Precedes(ws, e, x) {
      var k :| 0 <= k < |s| && s[k] == x;
      if k > 0 {
        assert Precedes(ws, s[0], s[k]);
      }
    }
    ConsRanked(ws, e, s);
  }

  /**
   * An entry that goes behind the head of a ranked list: the head still
   * precedes everything after it, the inserted entry included.
   */
  lemma InsertBehindRanked(ws: seq<Word>, e: Entry, s: seq<Entry>)
    requires Ranked(ws, s) && s != [] && e.count < s[0].count
    requires Ranked(ws, Insert(e, s[1..]))
    ensures Ranked(ws, [s[0]] + Insert(e, s[1..]))
  {
    var rest := Insert(e, s[1..]);
    forall x | x in rest ensures Precedes(ws, s[0], x) {
      assert x in multiset(rest);
      if x != e {
        assert x in s[1..];
        var k :| 0 <= k < |s[1..]| && s[1..][k] == x;
        assert s[k + 1] == x;
      }
    }
    ConsRanked(ws, s[0], rest);
  }

  /** Inserting an entry that was seen before everything in a ranked list keeps it ranked. */
  lemma {:induction false} InsertRanked(ws: seq<Word>, e: Entry, s: seq<Entry>)
    requires Ranked(ws, s)
    requires forall x :: x in s ==> FirstIndex(ws, e.word) < FirstIndex(ws, x.word)
    ensures Ranked(ws, Insert(e, s))
  {
    if s == [] || e.count >= s[0].count {
      InsertFrontRanked(ws, e, s);
    } else {
      RankedTail(ws, s);
      InsertRanked(ws, e, s[1..]);
      InsertBehindRanked(ws, e, s);
    }
  }

  /**
   * Stability: sorting a table whose words appear in first-seen order ranks it,
   * so equal counts keep first-seen order.
   */
  lemma {:induction false} SortByCountRanked(ws: seq<Word>, t: seq<Entry>)
    requires InFirstSeenOrder(ws, t)
    ensures Ranked(ws, SortByCount(t))
  {
    if t != [] {
      SortByCountRanked(ws, t[1..]);
      var s := SortByCount(t[1..]);
      forall x | x in s ensures FirstIndex(ws, t[0].word) < FirstIndex(ws, x.word) {
        assert x in multiset(s);
        var k :| 0 <= k < |t[1..]| && t[1..][k] == x;
        assert t[k + 1] == x;
      }
      InsertRanked(ws, t[0], s);
    }
  }

  /**
   * A ranked order is unique: two ranked lists holding the same entries are
   * the same list, so counts and first occurrences fully determine the order.
   */
  lemma {:induction false} RankedUnique(ws: seq<Word>, s1: seq<Entry>, s2: seq<Entry>)
    requires Ranked(ws, s1) && Ranked(ws, s2)
    requires forall x :: x in s1 <==> x in s2
    ensures s1 == s2
  {
    if s1 != [] {
      assert s1[0] in s2;
    }
    if s2 != [] {
      assert s2[0] in s1;
    }
    if s1 != [] && s2 != [] {
      var i :| 0 <= i < |s2| && s2[i] == s1[0];
      var j :| 0 <= j < |s1| && s1[j] == s2[0];
      assert s1[0] == s2[0];
      forall x ensures x in s1[1..] <==> x in s2[1..] {
        if x in s1[1..] {
          var k :| 0 <= k < |s1[1..]| && s1[1..][k] == x;
          assert Precedes(ws, s1[0], s1[k + 1]);
          assert x in s2;
        }
        if x in s2[1..] {
          var k :| 0 <= k < |s2[1..]| && s2[1..][k] == x;
          assert Precedes(ws, s2[0], s2[k + 1]);
          assert x in s1;
        }
      }
      RankedUnique(ws, s1[1..], s2[1..]);
      assert s1 == [s1[0]] + s1[1..];
      assert s2 == [s2[0]] + s2[1..];
    }
  }
}
