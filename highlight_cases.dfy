/** Worked buffers for the colour and font Tk draws where the independent scans overlap. */
module HighlightCases {
  import opened Wrappers
  import opened Scanner
  import opened Tokens
  import opened Highlight

  /** The buffer s holds exactly the characters of text. */
  predicate Spells(s: string, text: string)
  {
    |s| == |text| && forall i :: 0 <= i < |s| ==> s[i] == text[i]
  }

  /** A keyword written inside a string literal. */
  const QuotedInt: string := "\"int\""

  lemma QuotedIntString()
    ensures Scan(StringLiteral, QuotedInt, 0) == [Span(0, 5)]
  {
    assert MatchAt(StringLiteral, QuotedInt, 0) == Some(5);
  }

  lemma QuotedIntNumbers()
    ensures Scan(Number, QuotedInt, 0) == []
  {
    var s := QuotedInt;
    assert MatchAt(Number, s, 0) == None;
    assert MatchAt(Number, s, 1) == None;
    assert MatchAt(Number, s, 2) == None;
    assert MatchAt(Number, s, 3) == None;
    assert MatchAt(Number, s, 4) == None;
  }

  lemma QuotedIntScans()
    ensures Covered(Scan(StringLiteral, QuotedInt, 0)) == {0, 1, 2, 3, 4}
  {
    QuotedIntString();
    CoveredOne(0, 5);
    assert SpanSet(Span(0, 5)) == {0, 1, 2, 3, 4};
  }

  /** The word between the quotes is a keyword run, although it lies in a string. */
  lemma QuotedIntRuns(ks: set<string>)
    requires "int" in ks
    ensures KeywordRuns(QuotedInt, ks) == {1, 2, 3}
  {
    var s := QuotedInt;
    assert IsWordRun(s, 1, 4) && s[1..4] == "int";
    forall x: nat | x < |s| ensures x in KeywordRuns(s, ks) <==> 1 <= x < 4 {
      if 1 <= x < 4 {
        RunMember(s, ks, 1, 4, x);
      } else {
        NonWordNotRun(s, ks, x);
      }
    }
  }

  /** `"int"` holds no comment of either kind. */
  lemma QuotedIntComments()
    ensures Scan(BlockComment, QuotedInt, 0) == [] && Scan(LineComment, QuotedInt, 0) == []
  {
    var s := QuotedInt;
    assert forall q :: 0 <= q < |s| ==> !PairAt(s, q, '/', '*') && !PairAt(s, q, '/', '/');
    assert MatchAt(BlockComment, s, 0) == None && MatchAt(LineComment, s, 0) == None;
    assert MatchAt(BlockComment, s, 1) == None && MatchAt(LineComment, s, 1) == None;
    assert MatchAt(BlockComment, s, 2) == None && MatchAt(LineComment, s, 2) == None;
    assert MatchAt(BlockComment, s, 3) == None && MatchAt(LineComment, s, 3) == None;
    assert MatchAt(BlockComment, s, 4) == None && MatchAt(LineComment, s, 4) == None;
  }

  /** In `"int"` the word is drawn in the keyword's colour and bold font, for any
      word set holding it ... */
  lemma KeywordShownInsideString(ks: set<string>)
    requires "int" in ks
    ensures forall x :: 1 <= x < 4 ==> Foreground(ExpectedTags(QuotedInt, ks), x) == Some(KeywordTag)
    ensures forall x :: 1 <= x < 4 ==> Font(ExpectedTags(QuotedInt, ks), x) == Some(KeywordTag)
  {
    QuotedIntRuns(ks);
    forall x | 1 <= x < 4
      ensures Foreground(ExpectedTags(QuotedInt, ks), x) == Some(KeywordTag)
      ensures Font(ExpectedTags(QuotedInt, ks), x) == Some(KeywordTag)
    {
      KeywordStyleWins(QuotedInt, ks, x);
    }
  }

  /** ... so in particular for the editor's keywords. */
  lemma KeywordIntShownInsideString()
    ensures forall x :: 1 <= x < 4 ==> Foreground(ExpectedTags(QuotedInt, Keywords), x) == Some(KeywordTag)
    ensures forall x :: 1 <= x < 4 ==> Font(ExpectedTags(QuotedInt, Keywords), x) == Some(KeywordTag)
  {
    assert "int" in TypeWords;
    KeywordShownInsideString(Keywords);
  }

  /** ... and the quotes around it in the string colour and the widget's own font. */
  lemma QuotesShownAsString(s: string, ks: set<string>)
    requires Spells(s, QuotedInt)
    ensures Foreground(ExpectedTags(s, ks), 0) == Some(StringTag)
    ensures Foreground(ExpectedTags(s, ks), 4) == Some(StringTag)
    ensures Font(ExpectedTags(s, ks), 0) == None
    ensures Font(ExpectedTags(s, ks), 4) == None
  {
    QuoteShownAsString(s, ks, 0);
    QuoteShownAsString(s, ks, 4);
  }

  lemma QuoteShownAsString(s: string, ks: set<string>, x: nat)
    requires Spells(s, QuotedInt) && (x == 0 || x == 4)
    ensures Foreground(ExpectedTags(s, ks), x) == Some(StringTag)
    ensures Font(ExpectedTags(s, ks), x) == None
  {
    QuoteScans(s, x);
    QuoteDrawn(s, ks, x);
  }

  /** StringColourShown at a non-word character that lies in no comment span. */
  lemma QuoteDrawn(s: string, ks: set<string>, x: nat)
    requires x in Covered(Scan(StringLiteral, s, 0)) && x !in Covered(Scan(Number, s, 0))
    requires x !in Covered(Scan(BlockComment, s, 0)) + Covered(Scan(LineComment, s, 0))
    requires x < |s| && !IsWordChar(s[x])
    ensures Foreground(ExpectedTags(s, ks), x) == Some(StringTag)
    ensures Font(ExpectedTags(s, ks), x) == None
  {
    NonWordNotRun(s, ks, x);
    StringColourShown(s, ks, x);
  }

  /** A quote of `"int"` lies in the string span and in no number or comment span. */
  lemma QuoteScans(s: string, x: nat)
    requires Spells(s, QuotedInt) && (x == 0 || x == 4)
    ensures x in Covered(Scan(StringLiteral, s, 0)) && x !in Covered(Scan(Number, s, 0))
    ensures x !in Covered(Scan(BlockComment, s, 0)) + Covered(Scan(LineComment, s, 0))
  {
    assert s == QuotedInt;
    QuotedIntScans();
    QuotedIntNumbers();
    QuotedIntComments();
    assert Covered([]) == {};
  }

  /** A line-comment marker inside a string literal. */
  const QuotedSlashes: string := "\"//\""

  lemma QuotedSlashesString()
    ensures Covered(Scan(StringLiteral, QuotedSlashes, 0)) == {0, 1, 2, 3}
    ensures Scan(Number, QuotedSlashes, 0) == []
  {
    var s := QuotedSlashes;
    assert MatchAt(StringLiteral, s, 0) == Some(4);
    assert Scan(StringLiteral, s, 0) == [Span(0, 4)];
    assert MatchAt(Number, s, 0) == None;
    assert MatchAt(Number, s, 1) == None;
    assert MatchAt(Number, s, 2) == None;
    assert MatchAt(Number, s, 3) == None;
    assert Covered([Span(0, 4)]) == SpanSet(Span(0, 4)) + Covered([]);
  }

  lemma QuotedSlashesComment()
    ensures Scan(LineComment, QuotedSlashes, 0) == [Span(1, 4)]
  {
    assert MatchAt(LineComment, QuotedSlashes, 0) == None;
    assert MatchAt(LineComment, QuotedSlashes, 1) == Some(4);
  }

  lemma QuotedSlashesRuns(ks: set<string>)
    ensures KeywordRuns(QuotedSlashes, ks) == {}
  {
    assert forall x :: 0 <= x < |QuotedSlashes| ==> !IsWordChar(QuotedSlashes[x]);
  }

  /** The line-comment range of `"//"` is the slashes and the closing quote. */
  lemma QuotedSlashesCommentCover()
    ensures Covered(Scan(LineComment, QuotedSlashes, 0)) == {1, 2, 3}
  {
    QuotedSlashesComment();
    assert Covered([Span(1, 4)]) == SpanSet(Span(1, 4)) + Covered([]);
  }

  /** The scans of a buffer holding `"//"`. */
  lemma SlashesScans(s: string)
    requires Spells(s, QuotedSlashes)
    ensures Covered(Scan(StringLiteral, s, 0)) == {0, 1, 2, 3} && Scan(Number, s, 0) == []
    ensures Covered(Scan(LineComment, s, 0)) == {1, 2, 3}
  {
    assert s == QuotedSlashes;
    QuotedSlashesString();
    QuotedSlashesCommentCover();
  }

  /** No character of `"//"` is a word character. */
  lemma SlashesNonWord(s: string)
    requires Spells(s, QuotedSlashes)
    ensures |s| == 4 && forall x :: 0 <= x < 4 ==> !IsWordChar(s[x])
  {
    assert s[0] == '"' && s[1] == '/' && s[2] == '/' && s[3] == '"';
  }

  /** In `"//"` the slashes and the closing quote are tagged comment ... */
  lemma CommentMarkerTagged(s: string, ks: set<string>)
    requires Spells(s, QuotedSlashes)
    ensures forall x :: 1 <= x < 4 ==> Has(ExpectedTags(s, ks), CommentTag, x)
  {
    SlashesScans(s);
    forall x | 1 <= x < 4 ensures Has(ExpectedTags(s, ks), CommentTag, x) {
      LineCommentTagged(s, ks, x);
    }
  }

  /** ... and are drawn in the string colour, which is configured after the
      comment's, but keep the comment's italic font, since the string tag sets no
      font. */
  lemma CommentMarkerColourAndFont(s: string, ks: set<string>)
    requires Spells(s, QuotedSlashes)
    ensures forall x :: 1 <= x < 4 ==> Foreground(ExpectedTags(s, ks), x) == Some(StringTag)
    ensures forall x :: 1 <= x < 4 ==> Font(ExpectedTags(s, ks), x) == Some(CommentTag)
  {
    SlashesScans(s);
    SlashesNonWord(s);
    forall x | 1 <= x < 4
      ensures Foreground(ExpectedTags(s, ks), x) == Some(StringTag)
      ensures Font(ExpectedTags(s, ks), x) == Some(CommentTag)
    {
      CommentedStringDrawn(s, ks, x);
    }
  }

  /** StringColourShown at a non-word character inside a line-comment span. */
  lemma CommentedStringDrawn(s: string, ks: set<string>, x: nat)
    requires x in Covered(Scan(StringLiteral, s, 0)) && x !in Covered(Scan(Number, s, 0))
    requires x in Covered(Scan(LineComment, s, 0))
    requires x < |s| && !IsWordChar(s[x])
    ensures Foreground(ExpectedTags(s, ks), x) == Some(StringTag)
    ensures Font(ExpectedTags(s, ks), x) == Some(CommentTag)
  {
    NonWordNotRun(s, ks, x);
    LineCommentTagged(s, ks, x);
    StringColourShown(s, ks, x);
  }

  /** A line comment inside a block comment yields its own range; both land in the
      comment tag. */
  lemma LineCommentInsideBlockComment()
    ensures Scan(BlockComment, "/* // */", 0) == [Span(0, 8)]
    ensures Scan(LineComment, "/* // */", 0) == [Span(3, 8)]
  {
    var s := "/* // */";
    assert MatchAt(BlockComment, s, 0) == Some(8);
    assert MatchAt(LineComment, s, 0) == None;
    assert MatchAt(LineComment, s, 1) == None;
    assert MatchAt(LineComment, s, 2) == None;
    assert MatchAt(LineComment, s, 3) == Some(8);
  }
}
