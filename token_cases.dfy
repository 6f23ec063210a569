/** Worked inputs for the five scans, each stated as the exact list of spans. */
module TokenCases {
  import opened Wrappers
  import opened Scanner
  import opened Tokens

  /** A lone slash-star-slash is not a comment: the closer may not reuse the star. */
  lemma SlashStarSlashIsNotAComment()
    ensures Scan(BlockComment, "/*/", 0) == []
  {
    var s := "/*/";
    assert MatchAt(BlockComment, s, 0) == None;
    assert MatchAt(BlockComment, s, 1) == None;
    assert MatchAt(BlockComment, s, 2) == None;
  }

  /** An unterminated block comment is not highlighted at all. */
  lemma UnterminatedBlockComment()
    ensures Scan(BlockComment, "int x; /* comment", 0) == []
  {
    var s := "int x; /* comment";
    BlockCommentUnterminated(s, 7);
    assert forall q :: 0 <= q < |s| && q != 7 ==> !PairAt(s, q, '/', '*');
    LeftmostIsScan(BlockComment, s, 0, []);
  }

  /** Block comments do not nest: the first closer ends the comment. */
  lemma BlockCommentsDoNotNest()
    ensures Scan(BlockComment, "/* a /* b */ c */", 0) == [Span(0, 12)]
  {
    var s := "/* a /* b */ c */";
    var r := [Span(0, 12)];
    BlockCommentMatch(s, 0, 12);
    assert forall q :: 12 <= q < |s| ==> !PairAt(s, q, '/', '*');
    forall q | 0 <= q < |s| && MatchAt(BlockComment, s, q).Some?
      ensures Covers(r, q)
    {
      assert r[0].start <= q < r[0].end;
    }
    LeftmostIsScan(BlockComment, s, 0, r);
  }

  /** A line comment stops before the newline. */
  lemma LineCommentStopsAtNewline()
    ensures Scan(LineComment, "x // y\nz", 0) == [Span(2, 6)]
  {
    var s := "x // y\nz";
    assert MatchAt(LineComment, s, 0) == None;
    assert MatchAt(LineComment, s, 1) == None;
    assert MatchAt(LineComment, s, 2) == Some(6);
    assert MatchAt(LineComment, s, 6) == None;
    assert MatchAt(LineComment, s, 7) == None;
  }

  /** An escaped quote does not close the literal: one span over all six characters. */
  lemma EscapedQuote()
    ensures Scan(StringLiteral, "\"a\\\"b\"", 0) == [Span(0, 6)]
  {
    assert MatchAt(StringLiteral, "\"a\\\"b\"", 0) == Some(6);
  }

  /** A backslash before a newline leaves the literal unmatched. */
  lemma BackslashNewline()
    ensures Scan(StringLiteral, "\"a\\\nb", 0) == []
  {
    var s := "\"a\\\nb";
    assert MatchAt(StringLiteral, s, 0) == None;
    assert MatchAt(StringLiteral, s, 1) == None;
    assert MatchAt(StringLiteral, s, 2) == None;
    assert MatchAt(StringLiteral, s, 3) == None;
    assert MatchAt(StringLiteral, s, 4) == None;
  }

  lemma NumberStopsBeforeGluedFraction()
    ensures Scan(Number, "12.5x", 0) == [Span(0, 2)]
  {
    var s := "12.5x";
    assert MatchAt(Number, s, 0) == Some(2);
    assert MatchAt(Number, s, 2) == None;
    assert MatchAt(Number, s, 3) == None;
    assert MatchAt(Number, s, 4) == None;
  }

  lemma TwoDotsGiveTwoNumbers()
    ensures Scan(Number, "1.2.3", 0) == [Span(0, 3), Span(4, 5)]
  {
    var s := "1.2.3";
    assert MatchAt(Number, s, 0) == Some(3);
    assert MatchAt(Number, s, 3) == None;
    assert MatchAt(Number, s, 4) == Some(5);
  }

  lemma DigitsGluedToWordsAreNotNumbers()
    ensures Scan(Number, "123abc", 0) == [] && Scan(Number, "x1", 0) == []
  {
    var s := "123abc";
    assert MatchAt(Number, s, 0) == None;
    assert MatchAt(Number, s, 1) == None;
    assert MatchAt(Number, s, 2) == None;
    assert MatchAt(Number, s, 3) == None;
    assert MatchAt(Number, s, 4) == None;
    assert MatchAt(Number, s, 5) == None;
    assert MatchAt(Number, "x1", 0) == None;
    assert MatchAt(Number, "x1", 1) == None;
  }

  lemma SampleWords()
    ensures "int" in Keywords && "intx" !in Keywords && "x" !in Keywords
  {
    assert "int" in TypeWords;
    assert "intx" !in TypeWords && "x" !in TypeWords;
    assert "intx" !in ControlWords && "x" !in ControlWords;
    assert "intx" !in ClassWords && "x" !in ClassWords;
    assert "intx" !in StreamWords && "x" !in StreamWords;
    assert "intx" !in StorageWords && "x" !in StorageWords;
  }

  lemma IntxRuns(ks: set<string>)
    requires "intx" !in ks
    ensures KeywordRuns("intx", ks) == {}
  {
    var s := "intx";
    assert IsWordRun(s, 0, 4) && s[0..4] == "intx";
    forall x: nat | x < |s| ensures x !in KeywordRuns(s, ks) {
      RunMember(s, ks, 0, 4, x);
    }
  }

  /** A keyword glued to a word character is not a keyword occurrence. */
  lemma KeywordInsideLongerWord()
    ensures KeywordCover("intx", Keywords) == {}
  {
    SampleWords();
    IntxRuns(Keywords);
    KeywordsAreWords();
    KeywordCoverIsRuns("intx", Keywords);
  }

  lemma IntSpaceXRuns(ks: set<string>)
    requires "int" in ks && "x" !in ks
    ensures KeywordRuns("int x", ks) == {0, 1, 2}
  {
    var s := "int x";
    assert IsWordRun(s, 0, 3) && s[0..3] == "int";
    assert IsWordRun(s, 4, 5) && s[4..5] == "x";
    forall x: nat | x < |s| ensures x in KeywordRuns(s, ks) <==> x < 3 {
      if x < 3 {
        RunMember(s, ks, 0, 3, x);
      } else if x == 4 {
        RunMember(s, ks, 4, 5, x);
      } else {
        NonWordNotRun(s, ks, x);
      }
    }
  }

  /** A keyword standing alone is tagged over exactly its own characters. */
  lemma KeywordStandingAlone()
    ensures KeywordCover("int x", Keywords) == {0, 1, 2}
  {
    SampleWords();
    IntSpaceXRuns(Keywords);
    KeywordsAreWords();
    KeywordCoverIsRuns("int x", Keywords);
  }
}
