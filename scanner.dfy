/** The regular-expression scans that the editor's syntax highlighter runs over the
    whole buffer, and the leftmost, non-overlapping match enumeration that Python's
    `re.finditer` performs with them.

    Character classes are ASCII: a digit is `0`-`9`, a word character is a letter,
    a digit or `_`. */
module Scanner {
  import opened Wrappers

  /** A match: the half-open character range [start, end) of the buffer. */
  datatype Span = Span(start: nat, end: nat)

  predicate IsDigit(c: char) { '0' <= c <= '9' }

  predicate IsWordChar(c: char) {
    'a' <= c <= 'z' || 'A' <= c <= 'Z' || IsDigit(c) || c == '_'
  }

  /** A word character sits at offset i (false outside the buffer). */
  predicate WordAt(s: string, i: int) { 0 <= i < |s| && IsWordChar(s[i]) }

  /** The zero-width word boundary between offsets i - 1 and i. */
  predicate Boundary(s: string, i: int) { WordAt(s, i - 1) != WordAt(s, i) }

  /** The two characters a, b sit at offsets i and i + 1. */
  predicate PairAt(s: string, i: int, a: char, b: char) {
    0 <= i && i + 1 < |s| && s[i] == a && s[i + 1] == b
  }

  /** The character classes the patterns repeat greedily. */
  datatype CharClass = Digit | WordChar | NotNewline

  predicate InClass(c: char, k: CharClass) {
    match k
    case Digit => IsDigit(c)
    case WordChar => IsWordChar(c)
    case NotNewline => c != '\n'
  }

  /** End of the longest run of class k starting at j. */
  function RunEnd(s: string, j: nat, k: CharClass): (r: nat)
    requires j <= |s|
    decreases |s| - j
    ensures j <= r <= |s|
    ensures forall m :: j <= m < r ==> InClass(s[m], k)
    ensures r == |s| || !InClass(s[r], k)
  {
    if j == |s| || !InClass(s[j], k) then j else RunEnd(s, j + 1, k)
  }

  /** A run of class k from j that stops at e ends where RunEnd says. */
  lemma RunEndUnique(s: string, j: nat, k: CharClass, e: nat)
    requires j <= e <= |s| && forall m :: j <= m < e ==> InClass(s[m], k)
    requires e == |s| || !InClass(s[e], k)
    ensures RunEnd(s, j, k) == e
  {
  }

  /** Offset of the first closing star-slash at or after j: the lazy body of a
      block comment stops at the first one. */
  function FindClose(s: string, j: nat): (r: Option<nat>)
    decreases |s| - j
    ensures r.Some? ==> j <= r.value && PairAt(s, r.value, '*', '/')
    ensures r.Some? ==> forall k :: j <= k < r.value ==> !PairAt(s, k, '*', '/')
    ensures r.None? ==> forall k :: j <= k ==> !PairAt(s, k, '*', '/')
  {
    if j + 1 >= |s| then None
    else if s[j] == '*' && s[j + 1] == '/' then Some(j)
    else FindClose(s, j + 1)
  }

  /** The body of a string literal: a sequence of items, each either a backslash
      followed by a character other than a newline, or a single character that is
      neither a double quote nor a backslash (a newline is allowed). */
  predicate StringBody(b: string)
    decreases |b|
  {
    b == []
    || (b[0] == '\\' && |b| >= 2 && b[1] != '\n' && StringBody(b[2..]))
    || (b[0] != '"' && b[0] != '\\' && StringBody(b[1..]))
  }

  /** End (just past the closing quote) of a string literal whose body starts at j.
      Every character admits at most one item, so the greedy repetition has a single
      path; it fails at a backslash before a newline or the end, or at the end. */
  function StringClose(s: string, j: nat): (r: Option<nat>)
    decreases |s| - j
    ensures r.Some? ==> j < r.value <= |s| && s[r.value - 1] == '"' && StringBody(s[j..r.value - 1])
  {
    if j >= |s| then None
    else if s[j] == '"' then Some(j + 1)
    else if s[j] == '\\' then
      if j + 1 < |s| && s[j + 1] != '\n' then
        var r := StringClose(s, j + 2);
        assert r.Some? ==> s[j..r.value - 1][2..] == s[j + 2..r.value - 1];
        r
      else None
    else
      var r := StringClose(s, j + 1);
      assert r.Some? ==> s[j..r.value - 1][1..] == s[j + 1..r.value - 1];
      r
  }

  /** The five patterns of the highlighter: block comment, line comment, string
      literal, decimal number, and one keyword bounded by word boundaries. */
  datatype Pattern =
    | BlockComment
    | LineComment
    | StringLiteral
    | Number
    | Word(kw: string)

  /** End of the match of p that starts exactly at offset i, if any. */
  function MatchAt(p: Pattern, s: string, i: nat): (r: Option<nat>)
    ensures r.Some? ==> i < r.value <= |s|
  {
    match p
    case BlockComment =>
      if PairAt(s, i, '/', '*') then
        match FindClose(s, i + 2)
        case Some(k) => Some(k + 2)
        case None => None
      else None
    case LineComment =>
      if PairAt(s, i, '/', '/') then Some(RunEnd(s, i + 2, NotNewline)) else None
    case StringLiteral =>
      if i < |s| && s[i] == '"' then StringClose(s, i + 1) else None
    case Number =>
      if Boundary(s, i) && i < |s| && IsDigit(s[i]) then
        var j := RunEnd(s, i, Digit);
        if j + 1 < |s| && s[j] == '.' && IsDigit(s[j + 1]) && Boundary(s, RunEnd(s, j + 1, Digit)) then
          Some(RunEnd(s, j + 1, Digit))
        else if Boundary(s, j) then Some(j)
        else None
      else None
    case Word(kw) =>
      // every keyword the highlighter searches for is non-empty
      if |kw| > 0 && Boundary(s, i) && i + |kw| <= |s| && s[i..i + |kw|] == kw && Boundary(s, i + |kw|) then
        Some(i + |kw|)
      else None
  }

  /** A table of match results, one per offset: t[q] is the end of the match that
      starts at q, if any. Every match is non-empty and ends inside the buffer. */
  predicate Proper(t: seq<Option<nat>>) {
    forall q :: 0 <= q < |t| && t[q].Some? ==> q < t[q].value <= |t|
  }

  /** The match table of pattern p over s. */
  function Table(p: Pattern, s: string): (t: seq<Option<nat>>)
    ensures |t| == |s| && Proper(t)
    ensures forall q :: 0 <= q < |s| ==> t[q] == MatchAt(p, s, q)
  {
    seq(|s|, q requires 0 <= q < |s| => MatchAt(p, s, q))
  }

  /** The finditer loop over a match table: try each offset in turn, and after a
      match resume at its end. */
  function Enumerate(t: seq<Option<nat>>, i: nat): (r: seq<Span>)
    requires Proper(t)
    decreases |t| - i
    ensures forall k :: 0 <= k < |r| ==> i <= r[k].start < |t| && t[r[k].start] == Some(r[k].end)
    ensures forall k :: 0 <= k < |r| ==> r[k].start < r[k].end <= |t|
    ensures forall k, k' :: 0 <= k < k' < |r| ==> r[k].end <= r[k'].start
  {
    if i >= |t| then []
    else match t[i]
      case Some(e) => [Span(i, e)] + Enumerate(t, e)
      case None => Enumerate(t, i + 1)
  }

  /** The matches of p in s from offset i on, in the order finditer yields them
      (ScanIsLeftmost and LeftmostIsScan say which spans these are). */
  function Scan(p: Pattern, s: string, i: nat): (r: seq<Span>)
    ensures forall k :: 0 <= k < |r| ==> i <= r[k].start < r[k].end <= |s|
    ensures forall k, k' :: 0 <= k < k' < |r| ==> r[k].end <= r[k'].start
  {
    Enumerate(Table(p, s), i)
  }

  /** Each span Scan reports is a match of p starting where the span does. */
  lemma ScanSpan(p: Pattern, s: string, i: nat, k: nat)
    requires k < |Scan(p, s, i)|
    ensures MatchAt(p, s, Scan(p, s, i)[k].start) == Some(Scan(p, s, i)[k].end)
  {
  }

  /** Some span of r contains offset q. */
  predicate Covers(r: seq<Span>, q: int) {
    exists k :: 0 <= k < |r| && r[k].start <= q < r[k].end
  }

  /** Leftmost-first, non-overlapping enumeration of the matches in table t at or
      after offset i: every span is a match starting where it says, the spans are in
      order and disjoint, and every offset where a match starts lies inside a span. */
  predicate Leftmost(t: seq<Option<nat>>, i: nat, r: seq<Span>) {
    (forall k :: 0 <= k < |r| ==> i <= r[k].start < |t| && t[r[k].start] == Some(r[k].end))
    && (forall k, k' :: 0 <= k < k' < |r| ==> r[k].end <= r[k'].start)
    && (forall q {:trigger Covers(r, q)} :: i <= q < |t| && t[q].Some? ==> Covers(r, q))
  }

  /** The same property stated on the pattern and the buffer. */
  ghost predicate LeftmostMatches(p: Pattern, s: string, i: nat, r: seq<Span>) {
    (forall k :: 0 <= k < |r| ==> i <= r[k].start && MatchAt(p, s, r[k].start) == Some(r[k].end))
    && (forall k, k' :: 0 <= k < k' < |r| ==> r[k].end <= r[k'].start)
    && (forall q {:trigger Covers(r, q)} :: i <= q < |s| && MatchAt(p, s, q).Some? ==> Covers(r, q))
  }

  lemma LeftmostOfTable(p: Pattern, s: string, i: nat, r: seq<Span>)
    ensures LeftmostMatches(p, s, i, r) <==> Leftmost(Table(p, s), i, r)
  {
    var t := Table(p, s);
    if LeftmostMatches(p, s, i, r) {
      forall k | 0 <= k < |r| ensures r[k].start < |t| {
        assert MatchAt(p, s, r[k].start).Some?;
      }
    }
  }

  /** A match at i followed by a leftmost enumeration from its end is a leftmost
      enumeration from i. */
  lemma LeftmostCons(t: seq<Option<nat>>, i: nat, e: nat, rest: seq<Span>)
    requires Proper(t) && i < |t| && t[i] == Some(e)
    requires Leftmost(t, e, rest)
    ensures Leftmost(t, i, [Span(i, e)] + rest)
  {
    var r := [Span(i, e)] + rest;
    assert forall k :: 0 < k < |r| ==> r[k] == rest[k - 1];
    forall q | i <= q < |t| && t[q].Some?
      ensures Covers(r, q)
    {
      if q < e {
        assert r[0].start <= q < r[0].end;
      } else {
        assert Covers(rest, q);
        var k :| 0 <= k < |rest| && rest[k].start <= q < rest[k].end;
        assert r[k + 1].start <= q < r[k + 1].end;
      }
    }
  }

  lemma {:induction false} EnumerateIsLeftmost(t: seq<Option<nat>>, i: nat)
    requires Proper(t)
    ensures Leftmost(t, i, Enumerate(t, i))
    decreases |t| - i
  {
    if i < |t| {
      match t[i]
      case Some(e) =>
        EnumerateIsLeftmost(t, e);
        LeftmostCons(t, i, e, Enumerate(t, e));
      case None =>
        EnumerateIsLeftmost(t, i + 1);
    }
  }

  /** Scan enumerates the matches of p leftmost-first. */
  lemma ScanIsLeftmost(p: Pattern, s: string, i: nat)
    ensures LeftmostMatches(p, s, i, Scan(p, s, i))
  {
    EnumerateIsLeftmost(Table(p, s), i);
    LeftmostOfTable(p, s, i, Scan(p, s, i));
  }

  /** When the table has a match at i, a leftmost enumeration from i begins with it. */
  lemma LeftmostFirst(t: seq<Option<nat>>, i: nat, e: nat, r: seq<Span>)
    requires Proper(t) && Leftmost(t, i, r)
    requires i < |t| && t[i] == Some(e)
    ensures |r| > 0 && r[0] == Span(i, e)
  {
    assert Covers(r, i);
    var k :| 0 <= k < |r| && r[k].start <= i < r[k].end;
    var first := r[0];
    assert t[first.start].Some?;
    assert first.start < first.end;
    assert k == 0;
  }

  /** ... and continues with a leftmost enumeration from that match's end. */
  lemma LeftmostRest(t: seq<Option<nat>>, i: nat, e: nat, r: seq<Span>)
    requires Proper(t) && Leftmost(t, i, r)
    requires |r| > 0 && r[0] == Span(i, e)
    ensures Leftmost(t, e, r[1..])
  {
    var rest := r[1..];
    assert forall m :: 0 <= m < |rest| ==> rest[m] == r[m + 1];
    forall q | e <= q < |t| && t[q].Some?
      ensures Covers(rest, q)
    {
      assert Covers(r, q);
      var m :| 0 <= m < |r| && r[m].start <= q < r[m].end;
      assert m != 0;
      assert rest[m - 1].start <= q < rest[m - 1].end;
    }
    forall m | 0 <= m < |rest|
      ensures e <= rest[m].start
    {
      assert r[0].end <= r[m + 1].start;
    }
  }

  /** When the table has no match at i, a leftmost enumeration from i is one from i + 1. */
  lemma LeftmostSkip(t: seq<Option<nat>>, i: nat, r: seq<Span>)
    requires Leftmost(t, i, r)
    requires i < |t| && t[i].None?
    ensures Leftmost(t, i + 1, r)
  {
    forall k | 0 <= k < |r|
      ensures i + 1 <= r[k].start
    {
      assert t[r[k].start].Some?;
    }
  }

  lemma {:induction false} LeftmostIsEnumerate(t: seq<Option<nat>>, i: nat, r: seq<Span>)
    requires Proper(t) && Leftmost(t, i, r)
    ensures r == Enumerate(t, i)
    decreases |t| - i
  {
    if i >= |t| {
      assert |r| == 0;
    } else {
      match t[i]
      case Some(e) =>
        LeftmostFirst(t, i, e, r);
        LeftmostRest(t, i, e, r);
        LeftmostIsEnumerate(t, e, r[1..]);
        assert r == [Span(i, e)] + r[1..];
      case None =>
        LeftmostSkip(t, i, r);
        LeftmostIsEnumerate(t, i + 1, r);
    }
  }

  /** The enumeration is unique: whatever satisfies LeftmostMatches is Scan's result. */
  lemma LeftmostIsScan(p: Pattern, s: string, i: nat, r: seq<Span>)
    requires LeftmostMatches(p, s, i, r)
    ensures r == Scan(p, s, i)
  {
    LeftmostOfTable(p, s, i, r);
    LeftmostIsEnumerate(Table(p, s), i, r);
  }

  /** The offsets of one span. */
  predicate InSpan(sp: Span, x: int) { sp.start <= x < sp.end }

  function SpanSet(sp: Span): set<nat> {
    set x: nat | x < sp.end && InSpan(sp, x)
  }

  /** The offsets that the spans of r cover, as Tk's tag_add accumulates them. */
  function Covered(r: seq<Span>): (c: set<nat>)
    ensures forall x: nat :: x in c <==> Covers(r, x)
  {
    if r == [] then {}
    else
      var front := r[..|r| - 1];
      var c := Covered(front) + SpanSet(r[|r| - 1]);
      assert forall x: nat :: Covers(front, x) ==> Covers(r, x) by {
        forall x: nat | Covers(front, x) ensures Covers(r, x) {
          var k :| 0 <= k < |front| && front[k].start <= x < front[k].end;
          assert r[k] == front[k];
        }
      }
      assert forall x: nat :: Covers(r, x) ==> x in c by {
        forall x: nat | Covers(r, x) ensures x in c {
          var k :| 0 <= k < |r| && r[k].start <= x < r[k].end;
          if k < |r| - 1 {
            assert front[k] == r[k];
          }
        }
      }
      c
  }

  lemma CoveredOne(a: nat, b: nat)
    ensures Covered([Span(a, b)]) == SpanSet(Span(a, b))
  {
    assert Covered([Span(a, b)]) == Covered([]) + SpanSet(Span(a, b));
  }

  /** An offset inside one of the spans is covered. */
  lemma SpanCovered(r: seq<Span>, sp: Span, x: nat)
    requires sp in r && sp.start <= x < sp.end
    ensures x in Covered(r)
  {
    var k :| 0 <= k < |r| && r[k] == sp;
  }

  /** Scanning never reports an offset outside the buffer. */
  lemma ScanWithin(p: Pattern, s: string, i: nat)
    ensures forall x :: x in Covered(Scan(p, s, i)) ==> i <= x < |s|
  {
    var r := Scan(p, s, i);
    forall x | x in Covered(r) ensures i <= x < |s| {
      var k :| 0 <= k < |r| && r[k].start <= x < r[k].end;
    }
  }
}
