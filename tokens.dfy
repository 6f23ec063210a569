/** What each of the highlighter's five patterns matches, stated declaratively and
    proved against the matchers of module Scanner, together with the keyword set and
    the offsets the keyword scans cover. */
module Tokens {
  import opened Wrappers
  import opened Scanner

  /** The fixed, case-sensitive keyword set of the editor, written as the union of
      the five lines it is laid out on. */
  const Keywords: set<string> := TypeWords + ControlWords + ClassWords + StreamWords + StorageWords

  const TypeWords: set<string> :=
    {"int", "float", "double", "char", "void", "bool", "long", "short", "unsigned", "signed"}
  const ControlWords: set<string> :=
    {"if", "else", "while", "for", "do", "switch", "case", "default", "break", "continue", "return"}
  const ClassWords: set<string> :=
    {"class", "struct", "public", "private", "protected", "namespace", "using", "new", "delete", "this"}
  const StreamWords: set<string> :=
    {"cout", "cin", "endl", "main", "auto", "constexpr", "nullptr", "template", "typename"}
  const StorageWords: set<string> :=
    {"static", "inline", "virtual"}

  // ---------------------------------------------------------------------------
  // Block comments

  /** A block comment matches at i, ending at e, exactly when a slash-star opens at i
      and e is just past the first star-slash that begins at i + 2 or later; so the
      star of the opener is never reused and comments do not nest. */
  lemma BlockCommentMatch(s: string, i: nat, e: nat)
    ensures MatchAt(BlockComment, s, i) == Some(e) <==>
      PairAt(s, i, '/', '*') && i + 4 <= e && PairAt(s, e - 2, '*', '/')
      && forall k :: i + 2 <= k < e - 2 ==> !PairAt(s, k, '*', '/')
  {
    if PairAt(s, i, '/', '*') && i + 4 <= e && PairAt(s, e - 2, '*', '/')
       && forall k :: i + 2 <= k < e - 2 ==> !PairAt(s, k, '*', '/')
    {
      var c := FindClose(s, i + 2);
      assert c.Some?;
      assert c.value == e - 2;
    }
  }

  /** An opener with no star-slash at or after i + 2 yields no match at all: an
      unterminated block comment is not highlighted. */
  lemma BlockCommentUnterminated(s: string, i: nat)
    requires PairAt(s, i, '/', '*')
    ensures MatchAt(BlockComment, s, i).None? <==> forall k :: i + 2 <= k ==> !PairAt(s, k, '*', '/')
  {
    if MatchAt(BlockComment, s, i).Some? {
      var e := MatchAt(BlockComment, s, i).value;
      BlockCommentMatch(s, i, e);
      assert PairAt(s, e - 2, '*', '/');
    }
  }

  // ---------------------------------------------------------------------------
  // Line comments

  /** A line comment matches at i exactly when a double slash opens at i, and it ends
      just before the next newline or at the end of the buffer. */
  lemma LineCommentMatch(s: string, i: nat, e: nat)
    ensures MatchAt(LineComment, s, i) == Some(e) <==>
      PairAt(s, i, '/', '/') && i + 2 <= e <= |s|
      && (forall k :: i <= k < e ==> s[k] != '\n')
      && (e == |s| || s[e] == '\n')
  {
    if PairAt(s, i, '/', '/') && i + 2 <= e <= |s|
       && (forall k :: i <= k < e ==> s[k] != '\n')
       && (e == |s| || s[e] == '\n')
    {
      RunEndUnique(s, i + 2, NotNewline, e);
    }
  }

  // ---------------------------------------------------------------------------
  // String literals

  /** A string body followed by a double quote at m is closed exactly there. */
  lemma {:induction false} StringCloseComplete(s: string, j: nat, m: nat)
    requires j <= m < |s| && s[m] == '"' && StringBody(s[j..m])
    ensures StringClose(s, j) == Some(m + 1)
    decreases m - j
  {
    var b := s[j..m];
    if j < m {
      if b[0] == '\\' {
        assert b[2..] == s[j + 2..m];
        StringCloseComplete(s, j + 2, m);
      } else {
        assert b[1..] == s[j + 1..m];
        StringCloseComplete(s, j + 1, m);
      }
    }
  }

  /** A string literal matches at i, ending at e, exactly when a double quote opens at
      i, a double quote closes at e - 1, and what lies between is a well-formed body:
      so an escaped quote never closes the literal, and a backslash before a newline
      or the end, or a missing closing quote, leaves the opening quote unmatched. */
  lemma StringLiteralMatch(s: string, i: nat, e: nat)
    ensures MatchAt(StringLiteral, s, i) == Some(e) <==>
      i + 2 <= e <= |s| && s[i] == '"' && s[e - 1] == '"' && StringBody(s[i + 1..e - 1])
  {
    if i + 2 <= e <= |s| && s[i] == '"' && s[e - 1] == '"' && StringBody(s[i + 1..e - 1]) {
      StringCloseComplete(s, i + 1, e - 1);
    }
  }

  // ---------------------------------------------------------------------------
  // Numbers

  predicate AllDigits(s: string, a: int, b: int) {
    0 <= a <= b <= |s| && forall k :: a <= k < b ==> IsDigit(s[k])
  }

  /** A decimal literal between word boundaries at i and e: digits, or digits, a dot
      and digits. These are all the ways the number pattern can match at i. */
  ghost predicate NumberCandidate(s: string, i: int, e: int) {
    0 <= i < e <= |s| && Boundary(s, i) && Boundary(s, e)
    && (AllDigits(s, i, e) || exists m :: i < m < e - 1 && AllDigits(s, i, m) && s[m] == '.' && AllDigits(s, m + 1, e))
  }

  lemma NumberMatchSound(s: string, i: nat)
    requires MatchAt(Number, s, i).Some?
    ensures NumberCandidate(s, i, MatchAt(Number, s, i).value)
  {
    var j := RunEnd(s, i, Digit);
    var e := MatchAt(Number, s, i).value;
    if e != j {
      assert AllDigits(s, i, j) && s[j] == '.' && AllDigits(s, j + 1, e);
    }
  }

  /** Every candidate end is at most the end the matcher returns: the backtracking
      order of the pattern picks the longest candidate. */
  lemma NumberMatchLongest(s: string, i: nat, e': nat)
    requires NumberCandidate(s, i, e')
    ensures MatchAt(Number, s, i).Some? && e' <= MatchAt(Number, s, i).value
  {
    var j := RunEnd(s, i, Digit);
    assert IsDigit(s[i]);
    if AllDigits(s, i, e') {
      // the digits stop at e' because a word boundary follows them
      RunEndUnique(s, i, Digit, e');
    } else {
      var m :| i < m < e' - 1 && AllDigits(s, i, m) && s[m] == '.' && AllDigits(s, m + 1, e');
      RunEndUnique(s, i, Digit, m);
      assert IsDigit(s[m + 1]);
      RunEndUnique(s, m + 1, Digit, e');
    }
  }

  /** The number matcher returns exactly the longest word-bounded decimal literal
      starting at i: `12.5x` matches only `12`, `123abc` and `x1` do not match. */
  lemma NumberMatch(s: string, i: nat, e: nat)
    ensures MatchAt(Number, s, i) == Some(e) <==>
      NumberCandidate(s, i, e) && forall e' :: NumberCandidate(s, i, e') ==> e' <= e
  {
    if MatchAt(Number, s, i) == Some(e) {
      NumberMatchSound(s, i);
      forall e' | NumberCandidate(s, i, e') ensures e' <= e {
        NumberMatchLongest(s, i, e');
      }
    }
    if NumberCandidate(s, i, e) && forall e' :: NumberCandidate(s, i, e') ==> e' <= e {
      NumberMatchLongest(s, i, e);
      NumberMatchSound(s, i);
    }
  }

  // ---------------------------------------------------------------------------
  // Keywords

  /** A non-empty string of word characters. */
  predicate IsWord(w: string) {
    |w| > 0 && forall k :: 0 <= k < |w| ==> IsWordChar(w[k])
  }

  /** Every member of ks is a word. */
  predicate AllWords(ks: set<string>) {
    forall kw :: kw in ks ==> IsWord(kw)
  }

  /** Every keyword is a word, so a keyword can only match a whole word run. */
  lemma KeywordsAreWords()
    ensures AllWords(Keywords)
  {
    TypeWordsAreWords();
    ControlWordsAreWords();
    ClassWordsAreWords();
    StreamWordsAreWords();
    StorageWordsAreWords();
  }

  lemma TypeWordsAreWords()
    ensures AllWords(TypeWords)
  {
    forall kw | kw in TypeWords ensures IsWord(kw) {
    }
  }

  lemma ControlWordsAreWords()
    ensures AllWords(ControlWords)
  {
    forall kw | kw in ControlWords ensures IsWord(kw) {
    }
  }

  lemma ClassWordsAreWords()
    ensures AllWords(ClassWords)
  {
    forall kw | kw in ClassWords ensures IsWord(kw) {
    }
  }

  lemma StreamWordsAreWords()
    ensures AllWords(StreamWords)
  {
    forall kw | kw in StreamWords ensures IsWord(kw) {
    }
  }

  lemma StorageWordsAreWords()
    ensures AllWords(StorageWords)
  {
    forall kw | kw in StorageWords ensures IsWord(kw) {
    }
  }

  /** Start of the run of word characters that ends at x. */
  function RunStart(s: string, x: nat): (r: nat)
    requires x <= |s|
    ensures r <= x && !WordAt(s, r - 1)
    ensures forall m :: r <= m < x ==> IsWordChar(s[m])
  {
    if x > 0 && IsWordChar(s[x - 1]) then RunStart(s, x - 1) else x
  }

  /** [a, b) is a maximal, non-empty run of word characters. */
  predicate IsWordRun(s: string, a: int, b: int) {
    0 <= a < b <= |s| && (forall m :: a <= m < b ==> IsWordChar(s[m]))
    && !WordAt(s, a - 1) && !WordAt(s, b)
  }

  /** Every offset of a maximal word run finds the same run by walking both ways. */
  lemma WordRunAround(s: string, a: nat, b: nat, x: nat)
    requires IsWordRun(s, a, b) && a <= x < b
    ensures RunStart(s, x) == a && RunEnd(s, x, WordChar) == b
  {
    var l := RunStart(s, x);
    var r := RunEnd(s, x, WordChar);
    assert l < a ==> WordAt(s, a - 1);
    assert l > a ==> WordAt(s, l - 1);
    assert r < b ==> InClass(s[r], WordChar);
    assert r > b ==> WordAt(s, b);
  }

  /** A keyword matches at a, ending at e, exactly when [a, e) is a maximal word run
      spelling the keyword: `intx` holds no match for `int`. */
  lemma WordMatch(s: string, kw: string, a: nat, e: nat)
    requires IsWord(kw)
    ensures MatchAt(Word(kw), s, a) == Some(e) <==> IsWordRun(s, a, e) && s[a..e] == kw
  {
    if MatchAt(Word(kw), s, a) == Some(e) {
      forall m | a <= m < e ensures IsWordChar(s[m]) {
        assert s[m] == kw[m - a];
      }
    }
    if IsWordRun(s, a, e) && s[a..e] == kw {
      assert WordAt(s, a) && WordAt(s, e - 1);
    }
  }

  /** The offsets the scans for the keywords in ks cover together. */
  ghost function KeywordCover(s: string, ks: set<string>): set<nat> {
    set x: nat | x < |s| && KeywordCovered(s, ks, x)
  }

  /** Some keyword of ks has a scan span containing x. */
  ghost predicate KeywordCovered(s: string, ks: set<string>, x: nat) {
    exists kw :: kw in ks && x in Covered(Scan(Word(kw), s, 0))
  }

  /** Adding one keyword's scan to the union. */
  lemma KeywordCoverAdd(s: string, ks: set<string>, kw: string)
    ensures KeywordCover(s, ks + {kw}) == KeywordCover(s, ks) + Covered(Scan(Word(kw), s, 0))
  {
    var c := Covered(Scan(Word(kw), s, 0));
    ScanWithin(Word(kw), s, 0);
    forall x | x in c ensures x in KeywordCover(s, ks + {kw}) {
      assert KeywordCovered(s, ks + {kw}, x);
    }
    forall x | x in KeywordCover(s, ks) ensures x in KeywordCover(s, ks + {kw}) {
      var k :| k in ks && x in Covered(Scan(Word(k), s, 0));
      assert KeywordCovered(s, ks + {kw}, x);
    }
    forall x | x in KeywordCover(s, ks + {kw}) ensures x in KeywordCover(s, ks) + c {
      var k :| k in ks + {kw} && x in Covered(Scan(Word(k), s, 0));
      if k != kw {
        assert KeywordCovered(s, ks, x);
      }
    }
  }

  /** The offsets inside a maximal word run whose text is one of ks: the independent
      reference for what the scans for the words of ks cover. */
  ghost function KeywordRuns(s: string, ks: set<string>): set<nat> {
    set x: nat | x < |s| && IsWordChar(s[x]) && s[RunStart(s, x)..RunEnd(s, x, WordChar)] in ks
  }

  /** An offset inside the maximal word run [a, b) is a keyword-run offset exactly
      when the run's text is one of ks. */
  lemma RunMember(s: string, ks: set<string>, a: nat, b: nat, x: nat)
    requires IsWordRun(s, a, b) && a <= x < b
    ensures x in KeywordRuns(s, ks) <==> s[a..b] in ks
  {
    WordRunAround(s, a, b, x);
  }

  /** An offset holding no word character is never a keyword-run offset. */
  lemma NonWordNotRun(s: string, ks: set<string>, x: nat)
    requires x < |s| && !IsWordChar(s[x])
    ensures x !in KeywordRuns(s, ks)
  {
  }

  /** An offset a word's scan covers lies in a word run whose text is that word. */
  lemma ScannedWordIsRun(s: string, kw: string, x: nat)
    requires IsWord(kw) && x in Covered(Scan(Word(kw), s, 0))
    ensures x < |s| && IsWordChar(s[x]) && s[RunStart(s, x)..RunEnd(s, x, WordChar)] == kw
  {
    var r := Scan(Word(kw), s, 0);
    assert Covers(r, x);
    var k :| 0 <= k < |r| && r[k].start <= x < r[k].end;
    ScanSpan(Word(kw), s, 0, k);
    WordMatch(s, kw, r[k].start, r[k].end);
    WordRunAround(s, r[k].start, r[k].end, x);
  }

  /** Walking both ways from a word character finds a maximal word run. */
  lemma RunAt(s: string, x: nat)
    requires x < |s| && IsWordChar(s[x])
    ensures IsWordRun(s, RunStart(s, x), RunEnd(s, x, WordChar))
  {
    var a, b := RunStart(s, x), RunEnd(s, x, WordChar);
    forall m | a <= m < b ensures IsWordChar(s[m]) {
      if m >= x {
        assert InClass(s[m], WordChar);
      }
    }
  }

  /** Two maximal word runs that share an offset are the same run. */
  lemma RunsMeet(s: string, a: nat, b: nat, c: nat, d: nat, x: nat)
    requires IsWordRun(s, a, b) && IsWordRun(s, c, d) && a <= x < b && c <= x < d
    ensures a == c && b == d
  {
    WordRunAround(s, a, b, x);
    WordRunAround(s, c, d, x);
  }

  /** The scan for a word run's text finds that run. */
  lemma RunFound(s: string, kw: string, a: nat, b: nat)
    requires IsWord(kw) && IsWordRun(s, a, b) && s[a..b] == kw
    ensures Span(a, b) in Scan(Word(kw), s, 0)
  {
    WordMatch(s, kw, a, b);
    ScanIsLeftmost(Word(kw), s, 0);
    var r := Scan(Word(kw), s, 0);
    assert Covers(r, a);
    var k :| 0 <= k < |r| && r[k].start <= a < r[k].end;
    ScanSpan(Word(kw), s, 0, k);
    WordMatch(s, kw, r[k].start, r[k].end);
    RunsMeet(s, a, b, r[k].start, r[k].end, a);
    assert r[k] == Span(a, b);
  }

  /** The text of a maximal word run is a word. */
  lemma RunIsWord(s: string, a: nat, b: nat)
    requires IsWordRun(s, a, b)
    ensures IsWord(s[a..b])
  {
    var w := s[a..b];
    forall m | 0 <= m < |w| ensures IsWordChar(w[m]) {
      assert w[m] == s[a + m];
    }
  }

  /** Every offset in a word run is covered by the scan for the run's own text. */
  lemma RunIsScanned(s: string, x: nat)
    requires x < |s| && IsWordChar(s[x])
    ensures x in Covered(Scan(Word(s[RunStart(s, x)..RunEnd(s, x, WordChar)]), s, 0))
  {
    var a, b := RunStart(s, x), RunEnd(s, x, WordChar);
    RunAt(s, x);
    RunIsWord(s, a, b);
    RunFound(s, s[a..b], a, b);
    SpanCovered(Scan(Word(s[a..b]), s, 0), Span(a, b), x);
  }

  /** The union of the scans for the words of ks is exactly the set of offsets in
      word runs spelling one of them; in particular it does not depend on the order
      the words are taken. */
  lemma KeywordCoverIsRuns(s: string, ks: set<string>)
    requires AllWords(ks)
    ensures KeywordCover(s, ks) == KeywordRuns(s, ks)
  {
    forall x | x in KeywordCover(s, ks) ensures x in KeywordRuns(s, ks) {
      var kw :| kw in ks && x in Covered(Scan(Word(kw), s, 0));
      ScannedWordIsRun(s, kw, x);
    }
    forall x | x in KeywordRuns(s, ks) ensures x in KeywordCover(s, ks) {
      RunIsScanned(s, x);
    }
  }

  /** Spans of two different words (every keyword is one, by KeywordsAreWords) never
      share an offset: both would be the same word run. */
  lemma KeywordSpansDisjoint(s: string, kw1: string, kw2: string, x: nat)
    requires IsWord(kw1) && IsWord(kw2)
    requires x in Covered(Scan(Word(kw1), s, 0)) && x in Covered(Scan(Word(kw2), s, 0))
    ensures kw1 == kw2
  {
    var r1, r2 := Scan(Word(kw1), s, 0), Scan(Word(kw2), s, 0);
    var k1 :| 0 <= k1 < |r1| && r1[k1].start <= x < r1[k1].end;
    var k2 :| 0 <= k2 < |r2| && r2[k2].start <= x < r2[k2].end;
    ScanSpan(Word(kw1), s, 0, k1);
    ScanSpan(Word(kw2), s, 0, k2);
    WordMatch(s, kw1, r1[k1].start, r1[k1].end);
    WordMatch(s, kw2, r2[k2].start, r2[k2].end);
    WordRunAround(s, r1[k1].start, r1[k1].end, x);
    WordRunAround(s, r2[k2].start, r2[k2].end, x);
  }
}
