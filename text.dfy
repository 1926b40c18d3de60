/**
 * Character-level text handling of the keyword summarizer: normalisation
 * (`re.sub('[^a-zA-Z]', ' ', text).lower()`), splitting into words
 * (`str.split()`), and joining words back with single spaces (`' '.join`).
 */
module Text {

  /** A normalised word: a maximal run of non-space characters. */
  type Word = seq<char>

  /** Membership in the regular-expression class `[a-zA-Z]`. */
  predicate IsAsciiLetter(c: char) {
    'a' <= c <= 'z' || 'A' <= c <= 'Z'
  }

  predicate IsLowerLetter(c: char) {
    'a' <= c <= 'z'
  }

  /** `str.lower()` restricted to ASCII: an upper-case letter moves up 32 code points, to its lower-case form. */
  function LowerChar(c: char): char {
    if 'A' <= c <= 'Z' then (c as int + 32) as char else c
  }

  /** `re.sub('[^a-zA-Z]', ' ', s)`: one space for every character outside the class. */
  function BlankNonLetters(s: string): (r: string)
    ensures |r| == |s|
    ensures forall i :: 0 <= i < |s| ==> (IsAsciiLetter(r[i]) || r[i] == ' ')
    ensures forall i :: 0 <= i < |s| && IsAsciiLetter(s[i]) ==> r[i] == s[i]
    ensures forall i :: 0 <= i < |s| && !IsAsciiLetter(s[i]) ==> r[i] == ' '
  {
    seq(|s|, i requires 0 <= i < |s| => if IsAsciiLetter(s[i]) then s[i] else ' ')
  }

  /** ASCII lower-casing of a whole string. */
  function Lower(s: string): (r: string)
    ensures |r| == |s|
    ensures forall i :: 0 <= i < |s| && IsAsciiLetter(s[i]) ==> IsLowerLetter(r[i]) && LowerChar(r[i]) == r[i]
    ensures forall i :: 0 <= i < |s| && 'A' <= s[i] <= 'Z' ==> r[i] as int - 'a' as int == s[i] as int - 'A' as int
    ensures forall i :: 0 <= i < |s| && !('A' <= s[i] <= 'Z') ==> r[i] == s[i]
  {
    seq(|s|, i requires 0 <= i < |s| => LowerChar(s[i]))
  }

  /**
   * The cleaned text of the summarizer, `re.sub('[^a-zA-Z]', ' ', text).lower()`,
   * written position by position. Each position of the input turns into
   * exactly one position of the output: a letter becomes its lower-case form,
   * anything else becomes a space.
   */
  function Normalize(text: string): (clean: string)
    ensures |clean| == |text|
    ensures forall i :: 0 <= i < |text| && IsAsciiLetter(text[i]) ==>
      clean[i] == LowerChar(text[i]) && IsLowerLetter(clean[i])
    ensures forall i :: 0 <= i < |text| && !IsAsciiLetter(text[i]) ==> clean[i] == ' '
  {
    seq(|text|, i requires 0 <= i < |text| => if IsAsciiLetter(text[i]) then LowerChar(text[i]) else ' ')
  }

  /** The two steps of the source, blanking and then lower-casing, give the normalised text. */
  lemma BlankThenLower(text: string)
    ensures Lower(BlankNonLetters(text)) == Normalize(text)
  {
  }

  /** The alphabet of a normalised text: lower-case letters and the space. */
  predicate IsClean(s: string) {
    forall c :: c in s ==> c == ' ' || IsLowerLetter(c)
  }

  /** A text already in the normalised alphabet is left as it is. */
  lemma NormalizeClean(s: string)
    requires IsClean(s)
    ensures Normalize(s) == s
  {
    forall i | 0 <= i < |s| ensures Normalize(s)[i] == s[i] {
      assert s[i] in s;
    }
  }

  /** Normalisation works character by character, so it distributes over concatenation. */
  lemma NormalizeAppend(a: string, b: string)
    ensures Normalize(a + b) == Normalize(a) + Normalize(b)
  {
    assert |Normalize(a + b)| == |Normalize(a) + Normalize(b)|;
    forall i | 0 <= i < |a + b| ensures Normalize(a + b)[i] == (Normalize(a) + Normalize(b))[i] {
      if i >= |a| {
        assert (a + b)[i] == b[i - |a|];
      }
    }
  }

  /** The ASCII letters of `text`, lower-cased, in order. */
  function LowerLetters(text: string): string {
    if text == [] then []
    else if IsAsciiLetter(text[0]) then [LowerChar(text[0])] + LowerLetters(text[1..])
    else LowerLetters(text[1..])
  }

  /** Dropping the spaces of the normalised text leaves its lower-cased letters. */
  lemma {:induction false} NonSpacesOfNormalize(text: string)
    ensures NonSpaces(Normalize(text)) == LowerLetters(text)
  {
    if text != [] {
      NormalizeAppend([text[0]], text[1..]);
      assert [text[0]] + text[1..] == text;
      NonSpacesOfNormalize(text[1..]);
      assert Normalize(text)[1..] == Normalize(text[1..]);
    }
  }

  /** Length of the leading run of non-space characters of `s`. */
  function WordLength(s: string): (k: nat)
    ensures k <= |s|
    ensures forall i :: 0 <= i < k ==> s[i] != ' '
    ensures k < |s| ==> s[k] == ' '
  {
    if s == [] || s[0] == ' ' then 0 else 1 + WordLength(s[1..])
  }

  /** A word as `str.split()` produces it: non-empty and free of spaces. */
  predicate IsWord(w: Word) {
    |w| > 0 && ' ' !in w
  }

  /** The words written one after another, with nothing between them. */
  function Concat(ws: seq<Word>): string {
    if ws == [] then [] else ws[0] + Concat(ws[1..])
  }

  /** The non-space characters of `s`, in order. */
  function NonSpaces(s: string): string {
    if s == [] then []
    else if s[0] == ' ' then NonSpaces(s[1..])
    else [s[0]] + NonSpaces(s[1..])
  }

  /** A leading run of non-spaces is kept whole by `NonSpaces`. */
  lemma {:induction false} NonSpacesOfRun(s: string, k: nat)
    requires k <= |s|
    requires forall i :: 0 <= i < k ==> s[i] != ' '
    ensures NonSpaces(s) == s[..k] + NonSpaces(s[k..])
  {
    if k > 0 {
      NonSpacesOfRun(s[1..], k - 1);
      assert s[1..][..k - 1] == s[1..k];
      assert s[1..][k - 1..] == s[k..];
      assert s[..k] == [s[0]] + s[1..k];
    }
  }

  /**
   * `str.split()` with no separator: cut at runs of spaces and drop the empty
   * pieces. Every piece is a word whose characters come from `s`.
   */
  function Words(s: string): (ws: seq<Word>)
    ensures forall w :: w in ws ==> IsWord(w)
    ensures forall w, c :: w in ws && c in w ==> c in s
    decreases |s|
  {
    if s == [] then []
    else if s[0] == ' ' then Words(s[1..])
    else
      var k := WordLength(s);
      [s[..k]] + Words(s[k..])
  }

  /** `NonSpaces` distributes over concatenation. */
  lemma {:induction false} NonSpacesAppend(a: string, b: string)
    ensures NonSpaces(a + b) == NonSpaces(a) + NonSpaces(b)
  {
    if a != [] {
      assert (a + b)[0] == a[0] && (a + b)[1..] == a[1..] + b;
      NonSpacesAppend(a[1..], b);
    } else {
      assert a + b == b;
    }
  }

  /**
   * `' '.join(ws)`. Joining only adds spaces: without its spaces the result
   * is the words' own non-space characters, in order.
   */
  function Join(ws: seq<Word>): (r: string)
    ensures NonSpaces(r) == NonSpaces(Concat(ws))
  {
    if ws == [] then []
    else if |ws| == 1 then
      assert Concat(ws) == ws[0] + [];
      assert ws[0] + [] == ws[0];
      ws[0]
    else
      var j := Join(ws[1..]);
      NonSpacesAppend(ws[0] + " ", j);
      NonSpacesAppend(ws[0], " ");
      NonSpacesAppend(ws[0], Concat(ws[1..]));
      ws[0] + " " + j
  }

  /** A word followed by the end of the text or a space is read whole. */
  lemma {:induction false} WordLengthOfWord(w: Word, rest: string)
    requires ' ' !in w
    requires rest == [] || rest[0] == ' '
    ensures WordLength(w + rest) == |w|
  {
    if w != [] {
      assert (w + rest)[0] == w[0];
      assert (w + rest)[1..] == w[1..] + rest;
      WordLengthOfWord(w[1..], rest);
    } else {
      assert w + rest == rest;
    }
  }

  /** `str.split()` skips a space. */
  lemma WordsAtSpace(s: string, i: nat)
    requires i < |s| && s[i] == ' '
    ensures Words(s[i..]) == Words(s[i + 1..])
  {
    assert s[i..][1..] == s[i + 1..];
  }

  /**
   * `str.split()` reads a run of non-space characters that ends at a space or
   * at the end of the text as one word.
   */
  lemma WordsAtWord(s: string, i: nat, k: nat)
    requires i < k <= |s|
    requires forall j :: i <= j < k ==> s[j] != ' '
    requires k == |s| || s[k] == ' '
    ensures Words(s[i..]) == [s[i..k]] + Words(s[k..])
  {
    var w, rest := s[i..k], s[k..];
    assert s[i..] == w + rest;
    WordLengthOfWord(w, rest);
    assert (w + rest)[..|w|] == w && (w + rest)[|w|..] == rest;
  }

  /** A text with no letter at all splits into no words. */
  lemma {:induction false} WordsOfBlank(s: string)
    requires forall i :: 0 <= i < |s| ==> s[i] == ' '
    ensures Words(s) == []
    decreases |s|
  {
    if s != [] {
      WordsOfBlank(s[1..]);
    }
  }

  /** A text holding a non-space character splits into at least one word. */
  lemma {:induction false} WordsOfNonBlank(s: string, i: nat)
    requires i < |s| && s[i] != ' '
    ensures Words(s) != []
    decreases |s|
  {
    if s[0] == ' ' {
      WordsOfNonBlank(s[1..], i - 1);
    }
  }

  /**
   * Splitting drops nothing but spaces: the words, written one after
   * another, are the non-space characters of the text in their order.
   */
  lemma {:induction false} WordsKeepNonSpaces(s: string)
    ensures Concat(Words(s)) == NonSpaces(s)
    decreases |s|
  {
    if s != [] && s[0] == ' ' {
      WordsKeepNonSpaces(s[1..]);
    } else if s != [] {
      var k := WordLength(s);
      var rest := Words(s[k..]);
      WordsKeepNonSpaces(s[k..]);
      NonSpacesOfRun(s, k);
      assert ([s[..k]] + rest)[1..] == rest;
    }
  }

  /** A single word splits into itself. */
  lemma WordsOfWord(w: Word)
    requires IsWord(w)
    ensures Words(w) == [w]
  {
    WordsAtWord(w, 0, |w|);
    assert w[0..] == w && w[0..|w|] == w && w[|w|..] == [];
  }

  /** Spaces in front of a text do not change its words. */
  lemma {:induction false} WordsOfLeadingBlanks(sp: string, b: string)
    requires forall i :: 0 <= i < |sp| ==> sp[i] == ' '
    ensures Words(sp + b) == Words(b)
    decreases |sp|
  {
    if sp != [] {
      assert (sp + b)[1..] == sp[1..] + b;
      WordsOfLeadingBlanks(sp[1..], b);
    } else {
      assert sp + b == b;
    }
  }

  /** A word followed by the end of the text or a space is split off as the first word. */
  lemma WordsOfWordThen(w: Word, t: string)
    requires IsWord(w) && (t == [] || t[0] == ' ')
    ensures Words(w + t) == [w] + Words(t)
  {
    WordLengthOfWord(w, t);
    assert (w + t)[0] == w[0];
    assert (w + t)[..|w|] == w && (w + t)[|w|..] == t;
  }

  /** The step of `WordsBeforeSpace` for a text that starts with a space. */
  lemma BeforeSpaceAtSpace(a: string, r: string)
    requires a != [] && a[0] == ' '
    requires Words(a[1..] + r) == Words(a[1..]) + Words(r)
    ensures Words(a + r) == Words(a) + Words(r)
  {
    assert (a + r)[0] == ' ';
    assert (a + r)[1..] == a[1..] + r;
  }

  /** Concatenation is associative. */
  lemma AppendAssoc<T>(a: seq<T>, b: seq<T>, c: seq<T>)
    ensures a + (b + c) == (a + b) + c
  {
  }

  /** The step of `WordsBeforeSpace` for a text that starts with the word `w`. */
  lemma BeforeSpaceAtWord(w: Word, t: string, r: string)
    requires IsWord(w) && (t == [] || t[0] == ' ')
    requires r != [] && r[0] == ' '
    requires Words(t + r) == Words(t) + Words(r)
    ensures Words(w + (t + r)) == Words(w + t) + Words(r)
  {
    assert (t + r)[0] == ' ';
    WordsOfWordThen(w, t + r);
    WordsOfWordThen(w, t);
    AppendAssoc([w], Words(t), Words(r));
  }

  /**
   * Whatever starts with a space begins a new word: the words of `a + r` are
   * the words of `a` followed by the words of `r`.
   */
  lemma {:induction false} WordsBeforeSpace(a: string, r: string)
    requires r != [] && r[0] == ' '
    ensures Words(a + r) == Words(a) + Words(r)
    decreases |a|
  {
    if a == [] {
      assert a + r == r;
    } else if a[0] == ' ' {
      WordsBeforeSpace(a[1..], r);
      BeforeSpaceAtSpace(a, r);
    } else {
      var k := WordLength(a);
      WordsBeforeSpace(a[k..], r);
      BeforeSpaceAtWord(a[..k], a[k..], r);
      assert a[..k] + a[k..] == a;
      AppendAssoc(a[..k], a[k..], r);
    }
  }

  /**
   * A space separates: the words of `a + " " + b` are the words of `a`
   * followed by the words of `b`.
   */
  lemma WordsOfSpaceJoin(a: string, b: string)
    ensures Words(a + " " + b) == Words(a) + Words(b)
  {
    AppendAssoc(a, " ", b);
    WordsBeforeSpace(a, " " + b);
    assert (" " + b)[1..] == b;
  }

  /**
   * A non-empty run of spaces separates like a single one: the words of
   * `a + sp + b` are the words of `a` followed by the words of `b`.
   */
  lemma WordsOfSpaced(a: string, sp: string, b: string)
    requires |sp| > 0 && forall i :: 0 <= i < |sp| ==> sp[i] == ' '
    ensures Words(a + sp + b) == Words(a) + Words(b)
  {
    AppendAssoc(a, sp, b);
    assert (sp + b)[0] == ' ';
    WordsBeforeSpace(a, sp + b);
    WordsOfLeadingBlanks(sp, b);
  }

  /** Spaces after a text do not change its words. */
  lemma WordsOfTrailingBlanks(a: string, sp: string)
    requires forall i :: 0 <= i < |sp| ==> sp[i] == ' '
    ensures Words(a + sp) == Words(a)
  {
    if sp == [] {
      assert a + sp == a;
    } else {
      WordsOfSpaced(a, sp, []);
      assert a + sp + [] == a + sp;
    }
  }

  /**
   * Splitting undoes joining: the words of `' '.join(ws)` are `ws` again,
   * so the joined text separates its words by exactly one space each.
   */
  lemma {:induction false} WordsOfJoin(ws: seq<Word>)
    requires forall w :: w in ws ==> IsWord(w)
    ensures Words(Join(ws)) == ws
  {
    if ws == [] {
    } else if |ws| == 1 {
      var w := ws[0];
      assert w in ws;
      WordLengthOfWord(w, []);
      assert w + [] == w;
      assert w[|w|..] == [];
      assert w[..|w|] == w;
    } else {
      var w, j := ws[0], Join(ws[1..]);
      var s := w + " " + j;
      assert w in ws;
      assert s == w + (" " + j);
      WordLengthOfWord(w, " " + j);
      assert s[0] == w[0];
      assert s[..|w|] == w;
      assert s[|w|..] == " " + j;
      assert (" " + j)[1..] == j;
      WordsOfJoin(ws[1..]);
      assert ws == [w] + ws[1..];
    }
  }

  /**
   * The shape of `' '.join(ws)` over words: empty exactly when there are no
   * words, no leading or trailing space, no two spaces in a row, and no
   * character that is neither a space nor a character of some word.
   */
  lemma {:induction false} JoinShape(ws: seq<Word>)
    requires forall w :: w in ws ==> IsWord(w)
    ensures Join(ws) == [] <==> ws == []
    ensures ws != [] ==> Join(ws)[0] != ' ' && Join(ws)[|Join(ws)| - 1] != ' '
    ensures forall i :: 0 <= i < |Join(ws)| - 1 ==> Join(ws)[i] != ' ' || Join(ws)[i + 1] != ' '
    ensures forall c :: c in Join(ws) ==> c == ' ' || exists w :: w in ws && c in w
  {
    if |ws| > 1 {
      var w, j := ws[0], Join(ws[1..]);
      JoinShape(ws[1..]);
      assert w in ws && ws[1..] != [];
      var s := w + " " + j;
      assert |s| == |w| + 1 + |j|;
      forall i | 0 <= i < |s| - 1
        ensures s[i] != ' ' || s[i + 1] != ' '
      {
        if i < |w| - 1 {
          assert s[i] == w[i];
          assert w[i] in w;
        } else if i == |w| - 1 {
          assert s[i] == w[i];
          assert w[i] in w;
        } else if i == |w| {
          assert s[i + 1] == j[0];
        } else {
          assert s[i] == j[i - |w| - 1] && s[i + 1] == j[i - |w|];
        }
      }
      assert s[|s| - 1] == j[|j| - 1];
      assert s[0] == w[0];
      forall c | c in s
        ensures c == ' ' || exists v :: v in ws && c in v
      {
        if c in w {
          assert w in ws;
        } else if c != ' ' {
          assert c in j;
          var v :| v in ws[1..] && c in v;
          assert v in ws;
        }
      }
    } else if |ws| == 1 {
      assert ws[0] in ws;
      assert ws[0][|ws[0]| - 1] in ws[0];
      assert ws[0][0] in ws[0];
    }
  }
}
