/** The highlight pass of the editor: the text widget's tag state, the pass that
    clears the four syntax tags and re-adds the ranges the scans find, and the rule
    by which Tk picks the colour and the font drawn where tags overlap. */
module Highlight {
  import opened Wrappers
  import opened Scanner
  import opened Tokens

  /** The four syntax tags. */
  datatype Tag = CommentTag | StringTag | NumberTag | KeywordTag

  /** The tags in the order the editor configures them. Tk gives a tag configured
      later a higher priority, and draws each display option of a character from
      the highest-priority tag covering it that sets that option. */
  const Priority: seq<Tag> := [CommentTag, StringTag, NumberTag, KeywordTag]

  /** Position of t in Priority. */
  function Rank(t: Tag): (r: nat)
    ensures r < |Priority| && Priority[r] == t
  {
    match t
    case CommentTag => 0
    case StringTag => 1
    case NumberTag => 2
    case KeywordTag => 3
  }

  /** Tag t covers offset x in the tag state m. */
  predicate Has(m: map<Tag, set<nat>>, t: Tag, x: nat) {
    t in m && x in m[t]
  }

  /** The last tag of order that covers x, if any. */
  function TopOf(order: seq<Tag>, m: map<Tag, set<nat>>, x: nat): (r: Option<Tag>)
    ensures r.None? <==> forall k :: 0 <= k < |order| ==> !Has(m, order[k], x)
    ensures r.Some? ==> exists k :: (0 <= k < |order| && order[k] == r.value && Has(m, r.value, x)
                                     && forall k' :: k < k' < |order| ==> !Has(m, order[k'], x))
  {
    if order == [] then None
    else if Has(m, order[|order| - 1], x) then Some(order[|order| - 1])
    else
      var r := TopOf(order[..|order| - 1], m, x);
      assert forall k :: 0 <= k < |order| - 1 ==> order[..|order| - 1][k] == order[k];
      r
  }

  /** The tag whose foreground colour Tk draws at offset x. All four tags set a
      colour, so it is the covering tag configured last; none (the widget's own
      colour) when no tag covers x. */
  function Foreground(m: map<Tag, set<nat>>, x: nat): (r: Option<Tag>)
    ensures r.None? <==> forall t :: !Has(m, t, x)
    ensures r.Some? ==> Has(m, r.value, x) && forall t :: Rank(t) > Rank(r.value) ==> !Has(m, t, x)
  {
    RankIsIndex(m, x);
    TopOf(Priority, m, x)
  }

  /** The colour is determined by priority alone: a tag covering x that no
      higher-ranked covering tag outranks gives the colour drawn. */
  lemma ForegroundByRank(m: map<Tag, set<nat>>, x: nat, t: Tag)
    requires Has(m, t, x)
    requires forall t' :: Rank(t') > Rank(t) ==> !Has(m, t', x)
    ensures Foreground(m, x) == Some(t)
  {
    var r := Foreground(m, x);
    assert r.Some?;
    assert Rank(r.value) <= Rank(t) && Rank(t) <= Rank(r.value);
  }

  /** The tags whose configuration sets a font: comment (italic) and keyword
      (bold). The string and number tags set only a colour. */
  predicate SetsFont(t: Tag) {
    t == CommentTag || t == KeywordTag
  }

  /** The tag whose font Tk draws at offset x: of the covering tags that set a
      font, the one configured last; none (the widget's own font) when no such tag
      covers x. A string or number over a comment keeps the comment's font. */
  function Font(m: map<Tag, set<nat>>, x: nat): (r: Option<Tag>)
    ensures r.None? <==> forall t :: SetsFont(t) ==> !Has(m, t, x)
    ensures r.Some? ==> SetsFont(r.value) && Has(m, r.value, x)
                        && forall t :: SetsFont(t) && Rank(t) > Rank(r.value) ==> !Has(m, t, x)
  {
    if Has(m, KeywordTag, x) then Some(KeywordTag)
    else if Has(m, CommentTag, x) then Some(CommentTag)
    else None
  }

  /** The font is determined by priority among the font-setting tags: a covering
      font-setting tag that no higher-ranked one outranks gives the font drawn, and
      with no covering font-setting tag the widget's own font is drawn. */
  lemma FontByRank(m: map<Tag, set<nat>>, x: nat, t: Option<Tag>)
    requires t.Some? ==> SetsFont(t.value) && Has(m, t.value, x)
    requires forall t' :: SetsFont(t') && (t.None? || Rank(t') > Rank(t.value)) ==> !Has(m, t', x)
    ensures Font(m, x) == t
  {
    var r := Font(m, x);
    if t.Some? {
      assert r.Some?;
      assert Rank(r.value) <= Rank(t.value) && Rank(t.value) <= Rank(r.value);
    }
  }

  /** Rank is the inverse of indexing Priority, which lists every tag. */
  lemma RankIsIndex(m: map<Tag, set<nat>>, x: nat)
    ensures forall k, t :: 0 <= k < |Priority| && Priority[k] == t ==> Rank(t) == k
    ensures (forall t :: !Has(m, t, x)) <==> forall k :: 0 <= k < |Priority| ==> !Has(m, Priority[k], x)
  {
    forall t | Has(m, t, x) ensures exists k :: 0 <= k < |Priority| && Has(m, Priority[k], x) {
      assert Priority[Rank(t)] == t;
    }
  }

  /** The tag state one highlight pass leaves for the buffer code: comments take
      both the block and the line comment spans, strings and numbers their own
      spans, and the keyword tag every offset of a maximal word run that spells a
      keyword. */
  ghost function ExpectedTags(code: string, words: set<string>): (m: map<Tag, set<nat>>)
    ensures m.Keys == {CommentTag, StringTag, NumberTag, KeywordTag}
    ensures forall x :: x in m[KeywordTag] ==> x < |code| && IsWordChar(code[x])
  {
    map[CommentTag := Covered(Scan(BlockComment, code, 0)) + Covered(Scan(LineComment, code, 0)),
        StringTag := Covered(Scan(StringLiteral, code, 0)),
        NumberTag := Covered(Scan(Number, code, 0)),
        KeywordTag := KeywordRuns(code, words)]
  }

  /** The tag state with all four tags empty. */
  const Cleared: map<Tag, set<nat>> :=
    map[CommentTag := {}, StringTag := {}, NumberTag := {}, KeywordTag := {}]

  /** A state in which every listed tag is present and empty is Cleared. */
  lemma AllCleared(m: map<Tag, set<nat>>)
    requires forall k :: 0 <= k < |Priority| ==> Priority[k] in m && m[Priority[k]] == {}
    ensures m == Cleared
  {
    forall t ensures t in m && m[t] == {} && t in Cleared && Cleared[t] == {} {
      assert Priority[Rank(t)] == t;
    }
    assert m.Keys == Cleared.Keys;
  }

  /** The widget holding the buffer; each tag is the set of offsets it covers. */
  class TextWidget {
    var content: string
    var tags: map<Tag, set<nat>>

    constructor (initial: string)
      ensures content == initial && tags == map[]
    {
      content := initial;
      tags := map[];
    }

    /** The offsets tag t covers (none if it was never added). */
    function Tagged(t: Tag): set<nat>
      reads this
    {
      if t in tags then tags[t] else {}
    }

    /** Removes tag t from the whole buffer; the text and the other tags stay. */
    method TagRemove(t: Tag)
      modifies this
      ensures content == old(content)
      ensures tags == old(tags)[t := {}]
    {
      tags := tags[t := {}];
    }

    /** Adds tag t over the offsets of sp; the text and the other tags stay. */
    method TagAdd(t: Tag, sp: Span)
      modifies this
      ensures content == old(content)
      ensures tags == old(tags)[t := old(Tagged(t)) + SpanSet(sp)]
    {
      tags := tags[t := Tagged(t) + SpanSet(sp)];
    }
  }

  /** The editor window; only its text widget takes part in highlighting. */
  class SpurCEditor {
    const text: TextWidget

    constructor (text: TextWidget)
      ensures this.text == text
    {
      this.text := text;
    }

    /** Adds tag t over every span of spans, in order. */
    method AddAll(t: Tag, spans: seq<Span>)
      requires t in text.tags
      modifies text
      ensures text.content == old(text.content)
      ensures text.tags == old(text.tags)[t := old(text.tags[t]) + Covered(spans)]
    {
      ghost var base, prior := text.tags, text.tags[t];
      assert spans[..0] == [];
      assert prior + Covered(spans[..0]) == prior;
      assert base == base[t := prior];
      for k := 0 to |spans|
        invariant text.content == old(text.content)
        invariant text.tags == base[t := prior + Covered(spans[..k])]
      {
        ghost var before := prior + Covered(spans[..k]);
        assert text.Tagged(t) == before;
        text.TagAdd(t, spans[k]);
        assert text.tags == base[t := before + SpanSet(spans[k])];
        assert spans[..k + 1][..k] == spans[..k];
        assert Covered(spans[..k + 1]) == Covered(spans[..k]) + SpanSet(spans[k]);
        assert before + SpanSet(spans[k]) == prior + Covered(spans[..k + 1]);
      }
      assert spans[..|spans|] == spans;
    }

    /** Removes the four tags from the whole buffer, in the order Priority lists them. */
    method ClearTags()
      modifies text
      ensures text.content == old(text.content)
      ensures text.tags == Cleared
    {
      for k := 0 to |Priority|
        invariant text.content == old(text.content)
        invariant forall m :: 0 <= m < k ==> Priority[m] in text.tags && text.tags[Priority[m]] == {}
      {
        text.TagRemove(Priority[k]);
      }
      AllCleared(text.tags);
    }

    /** Adds the spans of every word of words to the keyword tag, taking the words
        in whatever order the set yields them. */
    method AddKeywords(code: string, words: set<string>)
      requires KeywordTag in text.tags
      modifies text
      ensures text.content == old(text.content)
      ensures text.tags == old(text.tags)[KeywordTag := old(text.tags[KeywordTag]) + KeywordCover(code, words)]
    {
      ghost var base, prior := text.tags, text.tags[KeywordTag];
      var remaining := words;
      ghost var cover: set<nat> := {};
      UnionStep(base, prior, {}, {});
      CoverNone(code, words);
      while remaining != {}
        invariant remaining <= words
        invariant cover == KeywordCover(code, words - remaining)
        invariant text.content == old(text.content)
        invariant text.tags == base[KeywordTag := prior + cover]
        decreases |remaining|
      {
        var kw :| kw in remaining;
        var found := Scan(Word(kw), code, 0);
        AddAll(KeywordTag, found);
        UnionStep(base, prior, cover, Covered(found));
        CoverStep(code, words, remaining, kw);
        remaining := remaining - {kw};
        cover := cover + Covered(found);
      }
      CoverAll(code, words, remaining);
    }

    /** Clears the four tags, then re-adds block comments, line comments, strings,
        numbers and keywords, each from a scan of the whole buffer. */
    method Highlight()
      modifies text
      ensures text.content == old(text.content)
      ensures text.tags == ExpectedTags(text.content, Keywords)
    {
      var code := text.content;
      ClearTags();
      AddAll(CommentTag, Scan(BlockComment, code, 0));
      AddAll(CommentTag, Scan(LineComment, code, 0));
      AddAll(StringTag, Scan(StringLiteral, code, 0));
      AddAll(NumberTag, Scan(Number, code, 0));
      AddKeywords(code, Keywords);
      KeywordsAreWords();
      ExpectedTagsBuilt(code, Keywords);
    }

    /** A second pass over unchanged text leaves the tags as the first one did. */
    method HighlightTwice()
      modifies text
      ensures text.content == old(text.content)
      ensures text.tags == ExpectedTags(old(text.content), Keywords)
    {
      Highlight();
      ghost var first := text.tags;
      Highlight();
      assert text.tags == first;
    }
  }

  /** Starting from Cleared and adding each scan's spans to its tag in turn yields
      ExpectedTags. */
  lemma ExpectedTagsBuilt(code: string, words: set<string>)
    requires AllWords(words)
    ensures ExpectedTags(code, words) ==
      Cleared[CommentTag := {} + Covered(Scan(BlockComment, code, 0))]
             [CommentTag := {} + Covered(Scan(BlockComment, code, 0)) + Covered(Scan(LineComment, code, 0))]
             [StringTag := {} + Covered(Scan(StringLiteral, code, 0))]
             [NumberTag := {} + Covered(Scan(Number, code, 0))]
             [KeywordTag := {} + KeywordCover(code, words)]
  {
    KeywordCoverIsRuns(code, words);
    BuildFromCleared(Covered(Scan(BlockComment, code, 0)), Covered(Scan(LineComment, code, 0)),
                     Covered(Scan(StringLiteral, code, 0)), Covered(Scan(Number, code, 0)),
                     KeywordRuns(code, words));
  }

  /** Before any word is taken, the keyword scans cover nothing. */
  lemma CoverNone(code: string, words: set<string>)
    ensures KeywordCover(code, words - words) == {}
  {
    assert words - words == {};
  }

  /** Taking one more word adds its scan to the keyword cover. */
  lemma CoverStep(code: string, words: set<string>, remaining: set<string>, kw: string)
    requires kw in remaining && remaining <= words
    ensures KeywordCover(code, words - (remaining - {kw})) ==
            KeywordCover(code, words - remaining) + Covered(Scan(Word(kw), code, 0))
  {
    forall w ensures w in words - (remaining - {kw}) <==> w in (words - remaining) + {kw} {
    }
    assert words - (remaining - {kw}) == (words - remaining) + {kw};
    KeywordCoverAdd(code, words - remaining, kw);
  }

  /** Once no word remains, every word has been taken. */
  lemma CoverAll(code: string, words: set<string>, remaining: set<string>)
    requires remaining == {}
    ensures KeywordCover(code, words - remaining) == KeywordCover(code, words)
  {
    assert words - remaining == words;
  }

  /** Adding d to the keyword tag after c is adding c + d at once; adding nothing
      changes nothing. */
  lemma UnionStep(base: map<Tag, set<nat>>, prior: set<nat>, c: set<nat>, d: set<nat>)
    ensures base[KeywordTag := prior + c][KeywordTag := (prior + c) + d] == base[KeywordTag := prior + (c + d)]
    ensures KeywordTag in base && base[KeywordTag] == prior ==> base == base[KeywordTag := prior + {}]
  {
    assert (prior + c) + d == prior + (c + d);
    assert prior + {} == prior;
  }

  lemma BuildFromCleared(b: set<nat>, l: set<nat>, s: set<nat>, n: set<nat>, kc: set<nat>)
    ensures map[CommentTag := b + l, StringTag := s, NumberTag := n, KeywordTag := kc] ==
      Cleared[CommentTag := {} + b][CommentTag := {} + b + l][StringTag := {} + s][NumberTag := {} + n][KeywordTag := {} + kc]
  {
    assert {} + b + l == b + l && {} + s == s && {} + n == n && {} + kc == kc;
  }

  /** After a pass no tag covers an offset at or past the end of the buffer, however
      the buffer shrank since the previous pass. */
  lemma ExpectedWithinBuffer(code: string, words: set<string>, t: Tag, x: nat)
    requires Has(ExpectedTags(code, words), t, x)
    ensures x < |code|
  {
    var m := ExpectedTags(code, words);
    match t
    case CommentTag =>
      var b, l := Scan(BlockComment, code, 0), Scan(LineComment, code, 0);
      assert x in Covered(b) || x in Covered(l);
      ScanWithin(BlockComment, code, 0);
      ScanWithin(LineComment, code, 0);
    case StringTag =>
      assert x in Covered(Scan(StringLiteral, code, 0));
      ScanWithin(StringLiteral, code, 0);
    case NumberTag =>
      assert x in Covered(Scan(Number, code, 0));
      ScanWithin(Number, code, 0);
    case KeywordTag =>
      assert x in KeywordRuns(code, words);
  }

  /** An empty buffer leaves all four tags empty. */
  lemma EmptyBufferClearsTags()
    ensures forall words :: ExpectedTags("", words) == Cleared
  {
    assert Scan(BlockComment, "", 0) == [] && Scan(LineComment, "", 0) == [];
    assert Scan(StringLiteral, "", 0) == [] && Scan(Number, "", 0) == [];
    forall words ensures ExpectedTags("", words) == Cleared {
      var m := ExpectedTags("", words);
      assert m[CommentTag] == {} && m[StringTag] == {} && m[NumberTag] == {} && m[KeywordTag] == {};
      AllCleared(m);
    }
  }

  /** Every offset of a line-comment range carries the comment tag. */
  lemma LineCommentTagged(code: string, words: set<string>, x: nat)
    requires x in Covered(Scan(LineComment, code, 0))
    ensures Has(ExpectedTags(code, words), CommentTag, x)
  {
  }

  /** Where a string span lies and neither a number nor a keyword does, the string
      colour is drawn, even over a comment range; the font is the comment's italic
      where a comment range lies, and the widget's own font elsewhere. */
  lemma StringColourShown(code: string, words: set<string>, x: nat)
    requires x in Covered(Scan(StringLiteral, code, 0))
    requires x !in Covered(Scan(Number, code, 0)) && x !in KeywordRuns(code, words)
    ensures Foreground(ExpectedTags(code, words), x) == Some(StringTag)
    ensures Font(ExpectedTags(code, words), x) ==
      if x in Covered(Scan(BlockComment, code, 0)) + Covered(Scan(LineComment, code, 0))
      then Some(CommentTag) else None
  {
    var m := ExpectedTags(code, words);
    assert Has(m, StringTag, x);
    assert !Has(m, NumberTag, x) && !Has(m, KeywordTag, x);
    ForegroundByRank(m, x, StringTag);
    if x in m[CommentTag] {
      FontByRank(m, x, Some(CommentTag));
    } else {
      FontByRank(m, x, None);
    }
  }

  /** Wherever the keyword tag lands, the keyword's colour and bold font are drawn,
      whatever other tags (a string, a comment) also cover that offset. */
  lemma KeywordStyleWins(code: string, words: set<string>, x: nat)
    requires x in KeywordRuns(code, words)
    ensures Foreground(ExpectedTags(code, words), x) == Some(KeywordTag)
    ensures Font(ExpectedTags(code, words), x) == Some(KeywordTag)
  {
    var m := ExpectedTags(code, words);
    assert Has(m, KeywordTag, x);
    FontByRank(m, x, Some(KeywordTag));
  }
}
