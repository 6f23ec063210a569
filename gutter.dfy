/** The line-number gutter: on each redraw it clears its labels and walks the lines
    from the top of the viewport down, drawing each line's number at that line's
    vertical offset, until the text widget reports a line that is not laid out.

    The text widget's index and layout queries are an oracle given as a Layout. */
module Gutter {
  import opened Wrappers

  /** One label: line number `line` drawn at vertical pixel offset y. */
  datatype Label = Label(line: nat, y: int)

  /** What the text widget answers during one redraw. `top` is the (1-based) line at
      the viewport's top-left pixel, or None when that index query fails. `lineY[n - 1]`
      is the y-offset of line n, or None when line n is not laid out; lines past the
      end of `lineY` are not laid out either. */
  datatype Layout = Layout(top: Option<nat>, lineY: seq<Option<int>>)

  /** The layout answer for line n. */
  function LineInfo(v: Layout, n: int): Option<int> {
    if 1 <= n <= |v.lineY| then v.lineY[n - 1] else None
  }

  /** Labels for line n and the lines below it, up to the first that is not laid out. */
  function LabelsFrom(v: Layout, n: nat): (r: seq<Label>)
    decreases |v.lineY| + 1 - n
    ensures r != [] ==> 1 <= n && n + |r| <= |v.lineY| + 1
    ensures forall k :: 0 <= k < |r| ==> 1 <= r[k].line <= |v.lineY|
  {
    match LineInfo(v, n)
    case None => []
    case Some(y) => [Label(n, y)] + LabelsFrom(v, n + 1)
  }

  /** The labels one redraw leaves in the gutter: never more than the text has
      lines, and each numbering one of them. */
  function Drawn(v: Layout): (r: seq<Label>)
    ensures |r| <= |v.lineY|
    ensures forall k :: 0 <= k < |r| ==> 1 <= r[k].line <= |v.lineY|
  {
    match v.top
    case None => []
    case Some(n) => LabelsFrom(v, n)
  }

  /** The gutter canvas and the labels currently drawn on it. */
  class LineNumbers {
    var labels: seq<Label>

    constructor ()
      ensures labels == []
    {
      labels := [];
    }

    /** Clears every label, then draws one per laid-out line from the viewport's top
        line down, stopping at the first line that is not laid out. */
    method Redraw(v: Layout)
      modifies this
      ensures labels == Drawn(v)
    {
      labels := [];
      if v.top.None? {
        return;
      }
      var i := v.top.value;
      while true
        invariant labels + LabelsFrom(v, i) == Drawn(v)
        decreases |v.lineY| + 1 - i
      {
        var info := LineInfo(v, i);
        if info.None? {
          break;
        }
        labels := labels + [Label(i, info.value)];
        i := i + 1;
      }
    }
  }

  /** `labels` shows lines n, n + 1, ... in order, each laid out and drawn at its
      own reported offset, and the line after the last label is not laid out. */
  predicate ShowsFrom(v: Layout, n: nat, labels: seq<Label>) {
    (forall k :: 0 <= k < |labels| ==>
       labels[k].line == n + k && LineInfo(v, labels[k].line) == Some(labels[k].y))
    && LineInfo(v, n + |labels|).None?
  }

  lemma {:induction false} LabelsFromShows(v: Layout, n: nat)
    ensures ShowsFrom(v, n, LabelsFrom(v, n))
    decreases |v.lineY| + 1 - n
  {
    if LineInfo(v, n).Some? {
      LabelsFromShows(v, n + 1);
      var d := LabelsFrom(v, n);
      assert d == [Label(n, LineInfo(v, n).value)] + LabelsFrom(v, n + 1);
      assert n + |d| == n + 1 + |LabelsFrom(v, n + 1)|;
      forall k | 0 <= k < |d|
        ensures d[k].line == n + k && LineInfo(v, d[k].line) == Some(d[k].y)
      {
        if k > 0 {
          assert d[k] == LabelsFrom(v, n + 1)[k - 1];
        }
      }
    }
  }

  lemma {:induction false} ShowsFromUnique(v: Layout, n: nat, labels: seq<Label>)
    requires ShowsFrom(v, n, labels)
    ensures labels == LabelsFrom(v, n)
    decreases |labels|
  {
    if |labels| > 0 {
      assert labels[0].line == n;
      var rest := labels[1..];
      forall k | 0 <= k < |rest|
        ensures rest[k].line == n + 1 + k && LineInfo(v, rest[k].line) == Some(rest[k].y)
      {
        assert rest[k] == labels[k + 1];
      }
      assert n + 1 + |rest| == n + |labels|;
      assert ShowsFrom(v, n + 1, rest);
      ShowsFromUnique(v, n + 1, rest);
      assert labels == [labels[0]] + rest;
    }
  }

  /** The gutter shows exactly: nothing when the top-line query fails; otherwise the
      consecutive lines from the top line on, each at its reported offset, ending
      just before the first line that is not laid out. */
  lemma DrawnExactly(v: Layout, labels: seq<Label>)
    ensures labels == Drawn(v) <==>
      if v.top.None? then labels == [] else ShowsFrom(v, v.top.value, labels)
  {
    if v.top.Some? {
      LabelsFromShows(v, v.top.value);
      if ShowsFrom(v, v.top.value, labels) {
        ShowsFromUnique(v, v.top.value, labels);
      }
    }
  }

  /** When the widget reports offsets that grow from line to line, the labels come
      in strictly increasing line and offset order. */
  lemma DrawnAscending(v: Layout)
    requires forall n :: 1 <= n < |v.lineY| && v.lineY[n - 1].Some? && v.lineY[n].Some? ==>
      v.lineY[n - 1].value < v.lineY[n].value
    ensures forall k, k' :: 0 <= k < k' < |Drawn(v)| ==>
      Drawn(v)[k].line < Drawn(v)[k'].line && Drawn(v)[k].y < Drawn(v)[k'].y
  {
    if v.top.Some? {
      var n := v.top.value;
      var d := LabelsFrom(v, n);
      LabelsFromShows(v, n);
      forall k, k' | 0 <= k < k' < |d| ensures d[k].line < d[k'].line && d[k].y < d[k'].y {
        var j := k;
        while j < k'
          invariant k <= j <= k'
          invariant d[k].y <= d[j].y && (j > k ==> d[k].y < d[j].y)
        {
          assert d[j].line == n + j && d[j + 1].line == n + j + 1;
          j := j + 1;
        }
        assert d[k].line == n + k && d[k'].line == n + k';
      }
    }
  }

  /** An empty buffer still has line 1, so the gutter shows exactly one label. */
  lemma EmptyBufferOneLabel(y: int)
    ensures Drawn(Layout(Some(1), [Some(y)])) == [Label(1, y)]
  {
    assert LabelsFrom(Layout(Some(1), [Some(y)]), 2) == [];
  }
}
