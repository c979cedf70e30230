// Models src/app/messages.rs: wrapping a message by display cells, and the
// bounded history with its mouse selection.
module Messages {
  import opened Options
  import Notifications

  // ---------------------------------------------------------------------
  // Wrapping
  // ---------------------------------------------------------------------

  /** One display unit of a message. A glyph is blank when it is whitespace. */
  datatype Glyph = Newline | Glyph(cells: nat, white: bool) {
    predicate Blank() {
      Newline? || white
    }

    function Cells(): nat {
      if Newline? then 0 else cells
    }
  }

  type Text = seq<Glyph>

  datatype Range = Range(start: nat, end: nat)

  function Width(text: Text): nat {
    if text == [] then 0 else Width(text[..|text| - 1]) + text[|text| - 1].Cells()
  }

  lemma WidthGrows(text: Text, start: nat, i: nat)
    requires start <= i < |text|
    ensures Width(text[start..i + 1]) == Width(text[start..i]) + text[i].Cells()
  {
    assert text[start..i + 1][..i - start] == text[start..i];
  }

  lemma {:induction false} WidthMonotone(text: Text, start: nat, i: nat, j: nat)
    requires start <= i <= j <= |text|
    ensures Width(text[start..i]) <= Width(text[start..j])
  {
    if i < j {
      WidthMonotone(text, start, i, j - 1);
      WidthGrows(text, start, j - 1);
    }
  }

  predicate NoBlank(text: Text, from: nat, to: nat)
    requires to <= |text|
  {
    forall j :: from <= j < to ==> !text[j].Blank()
  }

  predicate NoNewline(text: Text, from: nat, to: nat)
    requires to <= |text|
  {
    forall j :: from <= j < to ==> !text[j].Newline?
  }

  /** A row is within the width, or is a single glyph too wide for any row. */
  predicate Fits(text: Text, width: nat, r: Range)
    requires r.start <= r.end <= |text|
  {
    Width(text[r.start..r.end]) <= width || r.end == r.start + 1
  }

  /**
   * Glyph o is the first that does not fit. The row ends before it when it is
   * blank or the row is all one word; else before the last blank of the row.
   */
  predicate BreaksFor(text: Text, width: nat, r: Range, o: nat) {
    && r.start < r.end <= o < |text|
    && Width(text[r.start..o + 1]) > width && (r.end < o ==> Width(text[r.start..o]) <= width)
    && if o == r.end then text[o].Blank() || NoBlank(text, r.start + 1, o)
       else !text[o].Blank() && text[r.end].Blank() && NoBlank(text, r.end + 1, o)
  }

  /** A soft break falls before a blank, or inside a word that has the row to itself, and only when the row is full. */
  ghost predicate SoftBreak(text: Text, width: nat, r: Range) {
    exists o :: BreaksFor(text, width, r, o)
  }

  /** One row of a source line that ends at `stop`. */
  ghost predicate GoodRow(text: Text, width: nat, stop: nat, r: Range) {
    && r.start <= r.end <= stop <= |text| && (r.start < stop ==> r.start < r.end)
    && Fits(text, width, r)
    && (r.end < stop ==> SoftBreak(text, width, r))
  }

  /** How far the row from `start` has got: glyphs up to i are on it, the last blank among them is at `brk`. */
  ghost predicate Filling(text: Text, width: nat, start: nat, i: nat, cells: nat, brk: Option<nat>) {
    && start <= i <= |text| && cells == Width(text[start..i])
    && (cells <= width || i == start + 1)
    && match brk
       case None => NoBlank(text, start + 1, i)
       case Some(b) => start < b < i && text[b].Blank() && NoBlank(text, b + 1, i)
  }

  lemma FillOne(text: Text, width: nat, start: nat, i: nat, cells: nat, brk: Option<nat>)
    requires Filling(text, width, start, i, cells, brk) && i < |text|
    requires cells + text[i].Cells() <= width || i == start
    ensures Filling(text, width, start, i + 1, cells + text[i].Cells(),
                    if text[i].Blank() && i > start then Some(i) else brk)
  {
    WidthGrows(text, start, i);
  }

  lemma BreakRow(text: Text, width: nat, start: nat, i: nat, stop: nat, cells: nat, brk: Option<nat>)
    requires Filling(text, width, start, i, cells, brk) && start < i < stop <= |text|
    requires cells + text[i].Cells() > width
    ensures var end := if !text[i].Blank() && brk.Some? then brk.value else i;
            GoodRow(text, width, stop, Range(start, end))
  {
    var end := if !text[i].Blank() && brk.Some? then brk.value else i;
    WidthMonotone(text, start, end, i);
    WidthGrows(text, start, i);
    assert BreaksFor(text, width, Range(start, end), i);
  }

  lemma WholeRow(text: Text, width: nat, start: nat, stop: nat, cells: nat, brk: Option<nat>)
    requires Filling(text, width, start, stop, cells, brk)
    ensures GoodRow(text, width, stop, Range(start, stop))
  {
  }

  lemma StartFilling(text: Text, width: nat, start: nat)
    requires start <= |text|
    ensures Filling(text, width, start, start, 0, None)
  {
  }

  /** The inner loop: one row of the source line that ends at `stop`. */
  method Row(text: Text, start: nat, stop: nat, width: nat) returns (end: nat)
    requires start <= stop <= |text|
    ensures GoodRow(text, width, stop, Range(start, end))
  {
    hide *;
    end := start;
    var cells: nat := 0;
    var wordBreak: Option<nat> := None;
    StartFilling(text, width, start);
    for i := start to stop
      invariant end == i && Filling(text, width, start, i, cells, wordBreak)
    {
      var glyph := text[i];
      if cells + glyph.Cells() > width && end > start {
        BreakRow(text, width, start, i, stop, cells, wordBreak);
        if !glyph.Blank() && wordBreak.Some? {
          end := wordBreak.value;
        }
        return;
      }
      FillOne(text, width, start, i, cells, wordBreak);
      if glyph.Blank() && i > start {
        wordBreak := Some(i);
      }
      cells := cells + glyph.Cells();
      end := i + 1;
    }
    WholeRow(text, width, start, stop, cells, wordBreak);
  }

  /** The first glyph that does not fit, or the end of the line. */
  ghost predicate Misses(text: Text, width: nat, stop: nat, r: Range, o: nat) {
    if r.end == stop then o == stop else o < stop && BreaksFor(text, width, r, o)
  }

  lemma SomeMiss(text: Text, width: nat, stop: nat, r: Range) returns (o: nat)
    requires GoodRow(text, width, stop, r) && NoNewline(text, r.start, stop)
    requires stop < |text| ==> text[stop].Newline?
    ensures Misses(text, width, stop, r, o)
  {
    o := stop;
    if r.end < stop {
      o :| BreaksFor(text, width, r, o);
      hide Width;
    }
  }

  lemma MissIsFirst(text: Text, width: nat, stop: nat, r: Range, s: Range, o: nat, q: nat)
    requires r.start == s.start && GoodRow(text, width, stop, r) && GoodRow(text, width, stop, s)
    requires Misses(text, width, stop, r, o) && Misses(text, width, stop, s, q)
    ensures o >= q
  {
    hide SoftBreak, Width, NoBlank;
    if o < q {
      assert s.start + 1 <= r.end <= o;
      WidthMonotone(text, r.start, o + 1, q);
    }
  }

  /** Where a row ends is settled by where it starts. */
  lemma RowIsUnique(text: Text, width: nat, stop: nat, r: Range, s: Range)
    requires r.start == s.start && GoodRow(text, width, stop, r) && GoodRow(text, width, stop, s)
    requires NoNewline(text, r.start, stop) && (stop < |text| ==> text[stop].Newline?)
    ensures r == s
  {
    var o := SomeMiss(text, width, stop, r);
    var q := SomeMiss(text, width, stop, s);
    MissIsFirst(text, width, stop, r, s, o, q);
    MissIsFirst(text, width, stop, s, r, q, o);
    hide Width, SoftBreak, Fits;
  }

  // ---------------------------------------------------------------------
  // The whole message
  // ---------------------------------------------------------------------

  ghost predicate Covers(out: seq<Range>, i: nat) {
    exists k :: 0 <= k < |out| && out[k].start <= i < out[k].end
  }

  /** Rows are in order and apart, inside the first `upto` glyphs. */
  ghost predicate InOrder(out: seq<Range>, upto: nat) {
    && (forall k :: 0 <= k < |out| ==> out[k].start <= out[k].end <= upto)
    && (forall j, k :: 0 <= j < k < |out| ==> out[j].end <= out[k].start && out[j].start < out[k].start)
  }

  /** Only blanks are left out, newlines among them. */
  ghost predicate OnlyBlanksSkipped(text: Text, out: seq<Range>, upto: nat) {
    upto <= |text| && forall i :: 0 <= i < upto ==> Covers(out, i) || text[i].Blank()
  }

  predicate LineStart(text: Text, b: nat) {
    b <= |text| && (b == 0 || text[b - 1].Newline?)
  }

  /** A row starts its source line, indentation and all, or with a glyph that can be seen. */
  predicate GoodStart(text: Text, b: nat) {
    LineStart(text, b) || (b < |text| && !text[b].Blank())
  }

  /** A row starts well, lies in one source line, fits, and ends with it or at a soft break. */
  ghost predicate RowOk(text: Text, width: nat, r: Range) {
    && r.start <= r.end <= |text| && NoNewline(text, r.start, r.end) && Fits(text, width, r)
    && GoodStart(text, r.start)
    && (r.end < |text| && !text[r.end].Newline? ==> SoftBreak(text, width, r))
  }

  ghost predicate RowsOk(text: Text, width: nat, out: seq<Range>) {
    forall k :: 0 <= k < |out| ==> RowOk(text, width, out[k])
  }

  ghost predicate StartsAt(out: seq<Range>, b: nat) {
    exists k :: 0 <= k < |out| && out[k].start == b
  }

  /** Every source line up to `upto` has a row that starts where it does: indentation is kept. */
  ghost predicate EveryLineStarts(text: Text, out: seq<Range>, upto: nat) {
    forall b :: 0 <= b < upto && LineStart(text, b) ==> StartsAt(out, b)
  }

  ghost predicate Wrapped(text: Text, width: nat, out: seq<Range>, upto: nat) {
    && InOrder(out, upto) && OnlyBlanksSkipped(text, out, upto) && RowsOk(text, width, out)
    && EveryLineStarts(text, out, upto)
  }

  ghost predicate IsLine(text: Text, base: nat, stop: nat) {
    && base <= stop <= |text| && NoNewline(text, base, stop) && (stop < |text| ==> text[stop].Newline?)
  }

  /** All rows so far start before b. */
  predicate Earlier(out: seq<Range>, b: nat) {
    forall k :: 0 <= k < |out| ==> out[k].start < b
  }

  lemma EarlierStill(out: seq<Range>, b: nat, c: nat)
    requires Earlier(out, b) && b <= c
    ensures Earlier(out, c)
  {
  }

  lemma AddRow(text: Text, width: nat, out: seq<Range>, base: nat, stop: nat, r: Range)
    requires Wrapped(text, width, out, r.start) && IsLine(text, base, stop) && LineStart(text, base)
    requires base <= r.start <= stop && GoodRow(text, width, stop, r) && GoodStart(text, r.start)
    requires Earlier(out, r.start)
    ensures Earlier(out + [r], r.end + if r.start < r.end then 0 else 1)
    ensures Wrapped(text, width, out + [r], r.end)
    ensures StartsAt(out + [r], r.start)
  {
    RowIsOk(text, width, base, stop, r);
    GoodRowEnds(text, width, stop, r);
    AddRowCovers(text, out, r);
    AddRowStarts(text, out, base, stop, r);
    AddRowOk(text, width, out, r);
    hide GoodRow, GoodStart, IsLine, LineStart, InOrder, OnlyBlanksSkipped, RowOk, RowsOk, EveryLineStarts, StartsAt;
  }

  lemma AddRowOk(text: Text, width: nat, out: seq<Range>, r: Range)
    requires InOrder(out, r.start) && RowsOk(text, width, out) && r.start <= r.end && RowOk(text, width, r)
    requires Earlier(out, r.start)
    ensures Earlier(out + [r], r.end + if r.start < r.end then 0 else 1)
    ensures InOrder(out + [r], r.end) && RowsOk(text, width, out + [r])
  {
    hide RowOk;
  }

  lemma AddRowCovers(text: Text, out: seq<Range>, r: Range)
    requires OnlyBlanksSkipped(text, out, r.start) && r.start <= r.end <= |text|
    ensures OnlyBlanksSkipped(text, out + [r], r.end)
  {
    var more := out + [r];
    assert more[|out|] == r && forall k :: 0 <= k < |out| ==> more[k] == out[k];
    forall i | 0 <= i < r.end
      ensures Covers(more, i) || text[i].Blank()
    {
      if i >= r.start {
        assert more[|out|].start <= i < more[|out|].end;
      } else if Covers(out, i) {
        var k :| 0 <= k < |out| && out[k].start <= i < out[k].end;
        assert more[k].start <= i < more[k].end;
      }
    }
  }

  lemma AddRowStarts(text: Text, out: seq<Range>, base: nat, stop: nat, r: Range)
    requires EveryLineStarts(text, out, r.start) && IsLine(text, base, stop)
    requires base <= r.start <= r.end <= stop
    ensures EveryLineStarts(text, out + [r], r.end) && StartsAt(out + [r], r.start)
  {
    assert (out + [r])[|out|].start == r.start;
    forall b: nat | b < r.end && LineStart(text, b)
      ensures StartsAt(out + [r], b)
    {
      if b < r.start {
        NextRowStarts(out, r, b);
      } else {
        NoLineStartsInside(text, base, stop, b);
      }
    }
  }

  lemma GoodRowEnds(text: Text, width: nat, stop: nat, r: Range)
    requires GoodRow(text, width, stop, r)
    ensures r.start <= r.end <= stop <= |text| && (r.start < stop ==> r.start < r.end)
  {
  }

  lemma RowIsOk(text: Text, width: nat, base: nat, stop: nat, r: Range)
    requires IsLine(text, base, stop) && base <= r.start && GoodRow(text, width, stop, r) && GoodStart(text, r.start)
    ensures RowOk(text, width, r)
  {
    hide SoftBreak, Fits, GoodStart;
  }

  lemma NoLineStartsInside(text: Text, base: nat, stop: nat, b: nat)
    requires IsLine(text, base, stop) && base <= b <= stop && LineStart(text, b)
    ensures b == base
  {
  }

  /** Blanks after a soft break are passed over; none of them starts a source line. */
  lemma SkipBlank(text: Text, width: nat, out: seq<Range>, base: nat, stop: nat, start: nat)
    requires Wrapped(text, width, out, start) && IsLine(text, base, stop)
    requires base < start < stop && text[start].Blank()
    ensures Wrapped(text, width, out, start + 1)
  {
    hide RowsOk;
    forall b | 0 <= b < start + 1 && LineStart(text, b)
      ensures StartsAt(out, b)
    {
      if b == start {
        NoLineStartsInside(text, base, stop, b);
      }
    }
  }

  /** The newline after a source line is passed over. */
  lemma NextLine(text: Text, width: nat, out: seq<Range>, base: nat, stop: nat)
    requires Wrapped(text, width, out, stop) && IsLine(text, base, stop) && LineStart(text, base)
    requires StartsAt(out, base) && stop < |text|
    ensures Wrapped(text, width, out, stop + 1) && LineStart(text, stop + 1)
  {
    hide RowsOk;
    forall b | 0 <= b < stop + 1 && LineStart(text, b)
      ensures StartsAt(out, b)
    {
      if b == stop {
        NoLineStartsInside(text, base, stop, b);
      }
    }
  }

  lemma NextRowStarts(out: seq<Range>, r: Range, b: nat)
    requires StartsAt(out, b)
    ensures StartsAt(out + [r], b)
  {
    var k :| 0 <= k < |out| && out[k].start == b;
    assert (out + [r])[k].start == b;
  }

  method LineEnd(text: Text, base: nat) returns (stop: nat)
    requires base <= |text|
    ensures base <= stop <= |text| && IsLine(text, base, stop)
  {
    stop := base;
    while stop < |text| && !text[stop].Newline?
      invariant base <= stop <= |text| && NoNewline(text, base, stop)
    {
      stop := stop + 1;
    }
  }

  method SkipBlanks(text: Text, width: nat, ghost out: seq<Range>, base: nat, from: nat, stop: nat) returns (start: nat)
    requires IsLine(text, base, stop) && base < from <= stop && Wrapped(text, width, out, from)
    ensures from <= start <= stop && Wrapped(text, width, out, start)
    ensures start < stop ==> GoodStart(text, start)
  {
    start := from;
    assert stop <= |text|;
    hide IsLine, Wrapped, LineStart;
    while start < stop && text[start].Blank()
      invariant from <= start <= stop && Wrapped(text, width, out, start)
    {
      SkipBlank(text, width, out, base, stop, start);
      start := start + 1;
    }
  }

  /** The rows of one source line. */
  method WrapLine(text: Text, width: nat, out0: seq<Range>, base: nat, stop: nat) returns (out: seq<Range>)
    requires IsLine(text, base, stop) && LineStart(text, base) && Wrapped(text, width, out0, base)
    requires Earlier(out0, base)
    ensures Wrapped(text, width, out, stop) && StartsAt(out, base) && Earlier(out, stop + 1)
  {
    assert stop <= |text| && GoodStart(text, base);
    hide *;
    out := out0;
    var start := base;
    while true
      invariant base <= start <= stop && Wrapped(text, width, out, start)
      invariant start == stop ==> start == base
      invariant GoodStart(text, start) && Earlier(out, start)
      invariant start > base ==> StartsAt(out, base)
      decreases stop - start
    {
      var end := Row(text, start, stop, width);
      var r := Range(start, end);
      GoodRowEnds(text, width, stop, r);
      AddRow(text, width, out, base, stop, r);
      if start > base {
        NextRowStarts(out, r, base);
      }
      out := out + [r];
      if end == stop {
        EarlierStill(out, r.end + if r.start < r.end then 0 else 1, stop + 1);
        break;
      }
      start := SkipBlanks(text, width, out, base, end, stop);
      EarlierStill(out, r.end, start);
      EarlierStill(out, r.end, stop + 1);
      if start == stop {
        break;
      }
    }
  }

  /** Rows in order that cover everything but blanks, each inside its source line and within the width. */
  method Wrap(text: Text, width0: nat) returns (out: seq<Range>)
    ensures IsWrapped(text, if width0 == 0 then 1 else width0, out)
  {
    hide *;
    var width := if width0 == 0 then 1 else width0;
    out := [];
    var base := 0;
    NothingYet(text, width);
    while true
      invariant base <= |text| && Wrapped(text, width, out, base) && LineStart(text, base) && Earlier(out, base)
      decreases |text| - base
    {
      var stop := LineEnd(text, base);
      out := WrapLine(text, width, out, base, stop);
      if stop == |text| {
        LastLine(text, width, out, base);
        return;
      }
      NextLine(text, width, out, base, stop);
      base := stop + 1;
    }
  }

  /** The rows of a whole message. */
  ghost predicate IsWrapped(text: Text, width: nat, out: seq<Range>) {
    Wrapped(text, width, out, |text|) && forall b: nat :: LineStart(text, b) ==> StartsAt(out, b)
  }

  lemma NothingYet(text: Text, width: nat)
    ensures Wrapped(text, width, [], 0) && LineStart(text, 0) && Earlier([], 0)
  {
  }

  lemma LastLine(text: Text, width: nat, out: seq<Range>, base: nat)
    requires Wrapped(text, width, out, |text|) && IsLine(text, base, |text|) && StartsAt(out, base)
    ensures IsWrapped(text, width, out)
  {
    hide RowsOk;
    forall b: nat | LineStart(text, b)
      ensures StartsAt(out, b)
    {
      if b == |text| {
        NoLineStartsInside(text, base, |text|, b);
      }
    }
  }

  lemma {:induction false} OneCellRow(text: Text, start: nat, i: nat)
    requires start <= i <= |text| && forall j :: start <= j < i ==> text[j].Glyph? && text[j].cells == 1
    ensures Width(text[start..i]) == i - start
  {
    if start < i {
      OneCellRow(text, start, i - 1);
      WidthGrows(text, start, i - 1);
    }
  }

  /** Rows of one-cell glyphs have at most `width` of them. */
  lemma OneCellRowsFit(text: Text, width: nat, out: seq<Range>, k: nat)
    requires width >= 1 && IsWrapped(text, width, out) && k < |out|
    requires forall j :: out[k].start <= j < out[k].end ==> 0 <= j < |text| && text[j].Glyph? && text[j].cells == 1
    ensures out[k].end <= out[k].start + width
  {
    var r := out[k];
    assert RowOk(text, width, r);
    OneCellRow(text, r.start, r.end);
  }

  /** "ab cd" in three cells is "ab" and "cd"; the blank between them is on no row. */
  lemma TwoWordsOnTwoRows()
    ensures var l, blank := Glyph(1, false), Glyph(1, true);
            IsWrapped([l, l, blank, l, l], 3, [Range(0, 2), Range(3, 5)])
  {
    var l, blank := Glyph(1, false), Glyph(1, true);
    var text: Text := [l, l, blank, l, l];
    var out := [Range(0, 2), Range(3, 5)];
    OneCellRow(text, 0, 2);
    OneCellRow(text, 0, 3);
    OneCellRow(text, 0, 4);
    OneCellRow(text, 3, 5);
    hide Width;
    assert BreaksFor(text, 3, out[0], 3);
    assert RowOk(text, 3, out[0]) && RowOk(text, 3, out[1]);
    hide RowOk;
    assert out[0].start == 0;
  }

  // ---------------------------------------------------------------------
  // There is only one such wrapping
  // ---------------------------------------------------------------------

  /** Where the source line of a position ends. */
  function LineStop(text: Text, i: nat): (stop: nat)
    requires i <= |text|
    ensures i <= stop <= |text| && NoNewline(text, i, stop) && (stop < |text| ==> text[stop].Newline?)
    decreases |text| - i
  {
    if i < |text| && !text[i].Newline? then LineStop(text, i + 1) else i
  }

  lemma RowIsGood(text: Text, width: nat, r: Range)
    requires RowOk(text, width, r)
    ensures GoodRow(text, width, LineStop(text, r.start), r)
  {
    hide Width, NoBlank;
  }

  lemma SameEnd(text: Text, width: nat, r: Range, s: Range)
    requires RowOk(text, width, r) && RowOk(text, width, s) && r.start == s.start
    ensures r == s
  {
    RowIsGood(text, width, r);
    RowIsGood(text, width, s);
    assert r.start <= |text|;
    hide RowOk, GoodRow;
    RowIsUnique(text, width, LineStop(text, r.start), r, s);
  }

  lemma RowFacts(text: Text, width: nat, out: seq<Range>, k: nat)
    requires IsWrapped(text, width, out) && k < |out|
    ensures RowOk(text, width, out[k]) && GoodStart(text, out[k].start)
    ensures out[k].start <= out[k].end
    ensures k > 0 ==> out[k - 1].end <= out[k].start && out[k - 1].start < out[k].start
  {
    assert RowOk(text, width, out[k]);
    hide OnlyBlanksSkipped, EveryLineStarts, SoftBreak, Fits;
  }

  /** Wherever a row could start, one does or one runs past it. */
  lemma SomeRowAt(text: Text, width: nat, out: seq<Range>, p: nat) returns (m: nat)
    requires IsWrapped(text, width, out) && GoodStart(text, p)
    ensures m < |out| && out[m].start <= p && (out[m].start == p || p < out[m].end)
  {
    hide RowsOk, InOrder;
    if LineStart(text, p) {
      assert StartsAt(out, p);
      m :| m < |out| && out[m].start == p;
    } else {
      assert Covers(out, p);
      m :| m < |out| && out[m].start <= p < out[m].end;
    }
  }

  lemma RowsBefore(text: Text, width: nat, out: seq<Range>, j: nat, k: nat)
    requires IsWrapped(text, width, out) && j < k < |out|
    ensures out[j].end <= out[k].start && out[j].start < out[k].start
  {
    hide RowsOk, OnlyBlanksSkipped, EveryLineStarts;
  }

  /** Row k of one wrapping starts no earlier than where the other still has a row to come. */
  lemma NoRowBetween(text: Text, width: nat, a: seq<Range>, b: seq<Range>, k: nat)
    requires IsWrapped(text, width, a) && IsWrapped(text, width, b) && k < |a| && k <= |b|
    requires k > 0 ==> a[k - 1] == b[k - 1]
    ensures k < |b| && b[k].start <= a[k].start
  {
    hide IsWrapped, RowOk, GoodStart;
    RowFacts(text, width, a, k);
    var m := SomeRowAt(text, width, b, a[k].start);
    if m + 1 < k {
      RowsBefore(text, width, b, m, k - 1);
    } else if k < m {
      RowsBefore(text, width, b, k, m);
    }
  }

  lemma {:induction false} SameRows(text: Text, width: nat, a: seq<Range>, b: seq<Range>, k: nat)
    requires IsWrapped(text, width, a) && IsWrapped(text, width, b) && k < |a| && k < |b|
    ensures a[k] == b[k]
  {
    hide *;
    if k > 0 {
      SameRows(text, width, a, b, k - 1);
    }
    NoRowBetween(text, width, a, b, k);
    NoRowBetween(text, width, b, a, k);
    RowFacts(text, width, a, k);
    RowFacts(text, width, b, k);
    SameEnd(text, width, a[k], b[k]);
  }

  /** The source makes these rows, and no others meet the contract. */
  lemma WrapIsUnique(text: Text, width: nat, a: seq<Range>, b: seq<Range>)
    requires IsWrapped(text, width, a) && IsWrapped(text, width, b)
    ensures a == b
  {
    hide IsWrapped;
    var n := if |a| < |b| then |a| else |b|;
    forall k | 0 <= k < n
      ensures a[k] == b[k]
    {
      SameRows(text, width, a, b, k);
    }
    if |a| < |b| {
      NoRowBetween(text, width, b, a, n);
    } else if |b| < |a| {
      NoRowBetween(text, width, a, b, n);
    }
  }

  /** Every glyph that can be seen is on exactly one row. */
  lemma SeenExactlyOnce(text: Text, width: nat, out: seq<Range>, i: nat)
    requires IsWrapped(text, width, out) && i < |text| && !text[i].Blank()
    ensures exists k: nat :: k < |out| && out[k].start <= i < out[k].end
                             && forall j: nat :: j < |out| && out[j].start <= i < out[j].end ==> j == k
  {
    hide RowsOk, EveryLineStarts;
    assert Covers(out, i);
    var k: nat :| k < |out| && out[k].start <= i < out[k].end;
    forall j: nat | j < |out| && out[j].start <= i < out[j].end
      ensures j == k
    {
    }
  }

  // ---------------------------------------------------------------------
  // The history
  // ---------------------------------------------------------------------

  const MAX_ENTRIES: nat := 200
  const U32_MAX: nat := 0xFFFF_FFFF

  type Level = Notifications.Level

  datatype Entry = Entry(id: nat, text: string, level: Level, repeats: nat)

  function Bump(n: nat): nat {
    if n < U32_MAX then n + 1 else n
  }

  predicate Differ(a: Entry, b: Entry) {
    a.text != b.text || a.level != b.level
  }

  /** Consecutive ids up to the next one, bounded length, and no entry repeats the one before it. */
  ghost predicate History(entries: seq<Entry>, nextId: nat) {
    && |entries| <= MAX_ENTRIES && Numbered(entries, nextId) && NoRepeats(entries)
  }

  ghost predicate Numbered(entries: seq<Entry>, nextId: nat) {
    forall i :: 0 <= i < |entries| ==> entries[i].id == nextId - |entries| + i && 1 <= entries[i].repeats <= U32_MAX
  }

  ghost predicate NoRepeats(entries: seq<Entry>) {
    forall i, j :: 0 <= i && j == i + 1 < |entries| ==> Differ(entries[i], entries[j])
  }

  lemma HistoryGrows(was: seq<Entry>, nextId: nat, text: string, level: Level)
    requires History(was, nextId)
    requires |was| > 0 ==> was[|was| - 1].text != text || was[|was| - 1].level != level
    ensures Numbered(was + [Entry(nextId, text, level, 1)], nextId + 1)
    ensures NoRepeats(was + [Entry(nextId, text, level, 1)])
  {
  }

  lemma HistoryShrinks(all: seq<Entry>, nextId: nat)
    requires all != [] && Numbered(all, nextId) && NoRepeats(all)
    ensures Numbered(all[1..], nextId) && NoRepeats(all[1..])
  {
    forall i, j | 0 <= i && j == i + 1 < |all[1..]|
      ensures Differ(all[1..][i], all[1..][j])
    {
      assert Differ(all[i + 1], all[j + 1]);
    }
  }

  predicate IsRepeat(was: seq<Entry>, text: string, level: Level) {
    |was| > 0 && was[|was| - 1].level == level && was[|was| - 1].text == text
  }

  /** Saying the last thing again is counted; anything new is appended, in place of the oldest once the log is full. */
  function Pushed(was: seq<Entry>, nextId: nat, text: string, level: Level): seq<Entry> {
    var n := |was|;
    if IsRepeat(was, text, level) then was[..n - 1] + [was[n - 1].(repeats := Bump(was[n - 1].repeats))]
    else (if n < MAX_ENTRIES then was else was[1..]) + [Entry(nextId, text, level, 1)]
  }

  class MessageLog {
    var entries: seq<Entry>
    var nextId: nat

    ghost predicate Valid()
      reads this
    {
      History(entries, nextId)
    }

    constructor ()
      ensures Valid() && entries == [] && nextId == 0
    {
      entries, nextId := [], 0;
    }

    method Push(text: string, level: Level)
      requires Valid()
      modifies this
      ensures Valid()
      ensures entries == Pushed(old(entries), old(nextId), text, level)
      ensures nextId == if IsRepeat(old(entries), text, level) then old(nextId) else old(nextId) + 1
      ensures var was, n := old(entries), |old(entries)|;
              if n > 0 && was[n - 1].text == text && was[n - 1].level == level then
                && entries[..n - 1] == was[..n - 1] && |entries| == n && nextId == old(nextId)
                && entries[n - 1].id == was[n - 1].id && entries[n - 1].text == text && entries[n - 1].level == level
                && entries[n - 1].repeats == if was[n - 1].repeats < U32_MAX then was[n - 1].repeats + 1 else U32_MAX
              else
                && nextId == old(nextId) + 1
                && entries == (if n == MAX_ENTRIES then was[1..] else was) + [Entry(old(nextId), text, level, 1)]
    {
      var n := |entries|;
      if n > 0 && entries[n - 1].level == level && entries[n - 1].text == text {
        entries := entries[..n - 1] + [entries[n - 1].(repeats := Bump(entries[n - 1].repeats))];
        return;
      }
      HistoryGrows(entries, nextId, text, level);
      entries := entries + [Entry(nextId, text, level, 1)];
      nextId := nextId + 1;
      ghost var all := entries;
      while |entries| > MAX_ENTRIES
        invariant entries == all || (|all| == MAX_ENTRIES + 1 && entries == all[1..])
        invariant Numbered(entries, nextId) && NoRepeats(entries)
        invariant nextId == old(nextId) + 1
        decreases |entries|
      {
        HistoryShrinks(entries, nextId);
        entries := entries[1..];
      }
      assert n > 0 ==> all[1..] == old(entries)[1..] + [Entry(old(nextId), text, level, 1)];
    }
  }

  // ---------------------------------------------------------------------
  // Selection
  // ---------------------------------------------------------------------

  datatype Position = Position(id: nat, offset: nat)

  datatype Hit = Hit(start: Position, end: Position)

  datatype Selection = Selection(anchor: Hit, focus: Hit, moved: bool)

  predicate Before(a: Position, b: Position) {
    a.id < b.id || (a.id == b.id && a.offset <= b.offset)
  }

  function MinPosition(a: Position, b: Position): Position {
    if Before(a, b) then a else b
  }

  function MaxPosition(a: Position, b: Position): Position {
    if Before(a, b) then b else a
  }

  function Bounds(s: Selection): Option<(Position, Position)> {
    if s.moved then Some((MinPosition(s.anchor.start, s.focus.start), MaxPosition(s.anchor.end, s.focus.end)))
    else None
  }

  /** The part of an entry inside the bounds, if the entry is. */
  function Part(e: Entry, start: Position, end: Position): Option<string> {
    if e.id < start.id || e.id > end.id then None
    else
      var from := if e.id == start.id then start.offset else 0;
      var to := if e.id == end.id then end.offset else |e.text|;
      if from <= to <= |e.text| then Some(e.text[from..to]) else None
  }

  function Picked(entries: seq<Entry>, start: Position, end: Position): seq<string> {
    if entries == [] then []
    else Picked(entries[..|entries| - 1], start, end)
         + match Part(entries[|entries| - 1], start, end) case Some(t) => [t] case None => []
  }

  function Join(parts: seq<string>): string {
    if parts == [] then ""
    else if |parts| == 1 then parts[0]
    else parts[0] + "\n" + Join(parts[1..])
  }

  function SelectedText(entries: seq<Entry>, s: Selection): string {
    match Bounds(s)
    case None => ""
    case Some((start, end)) => Join(Picked(entries, start, end))
  }

  // ---------------------------------------------------------------------
  // What is selected
  // ---------------------------------------------------------------------

  /** At or before, by entry and then by offset. */
  predicate UpTo(a: Position, b: Position) {
    a.id < b.id || (a.id == b.id && a.offset <= b.offset)
  }

  /** The pointer moved on from the anchor: from the anchor's start to the focus's end. */
  predicate Dragged(s: Selection, start: Position, end: Position) {
    && s.moved && s.anchor.start == start && s.focus.end == end
    && UpTo(start, s.focus.start) && UpTo(s.anchor.end, end)
  }

  lemma DraggedBounds(s: Selection, start: Position, end: Position)
    requires Dragged(s, start, end)
    ensures Bounds(s) == Some((start, end))
  {
  }

  lemma {:induction false} PickedNone(es: seq<Entry>, start: Position, end: Position)
    requires forall e :: e in es ==> e.id < start.id || end.id < e.id
    ensures Picked(es, start, end) == []
  {
    if es != [] {
      PickedNone(es[..|es| - 1], start, end);
      assert es[|es| - 1] in es;
    }
  }

  /** The texts of entries that lie between the two ends, each after a line break. */
  function Between(es: seq<Entry>): string {
    if es == [] then "" else "\n" + es[0].text + Between(es[1..])
  }

  function Texts(es: seq<Entry>): seq<string> {
    seq(|es|, i requires 0 <= i < |es| => es[i].text)
  }

  lemma {:induction false} PickedWhole(es: seq<Entry>, start: Position, end: Position)
    requires forall i :: 0 <= i < |es| ==> start.id < es[i].id < end.id
    ensures Picked(es, start, end) == Texts(es)
  {
    if es != [] {
      var n := |es| - 1;
      PickedWhole(es[..n], start, end);
      assert es[n].text[0..|es[n].text|] == es[n].text;
      assert Texts(es) == Texts(es[..n]) + [es[n].text];
    }
  }

  lemma {:induction false} JoinBetween(first: string, es: seq<Entry>, last: string)
    ensures Join([first] + Texts(es) + [last]) == first + Between(es) + "\n" + last
    decreases |es|
  {
    var parts := [first] + Texts(es) + [last];
    if es == [] {
      assert parts == [first, last] && parts[1..] == [last];
      assert first + "" + "\n" + last == first + "\n" + last;
    } else {
      JoinBetween(es[0].text, es[1..], last);
      assert parts[1..] == [es[0].text] + Texts(es[1..]) + [last];
      var rest := Between(es[1..]);
      assert first + "\n" + (es[0].text + rest + "\n" + last) == first + ("\n" + es[0].text + rest) + "\n" + last;
    }
  }

  /** Nothing is selected until the pointer has moved. */
  lemma UnmovedSelectsNothing(entries: seq<Entry>, s: Selection)
    requires !s.moved
    ensures SelectedText(entries, s) == ""
  {
  }

  /** Inside one entry: the text between the two offsets, or nothing if they are not in order inside it. */
  lemma SelectedInside(entries: seq<Entry>, nextId: nat, s: Selection, start: Position, end: Position, i: nat)
    requires Numbered(entries, nextId) && i < |entries| && Dragged(s, start, end)
    requires start.id == entries[i].id == end.id
    ensures var t := entries[i].text;
            SelectedText(entries, s) == if start.offset <= end.offset <= |t| then t[start.offset..end.offset] else ""
  {
    DraggedBounds(s, start, end);
    var a, e, b := entries[..i], entries[i], entries[i + 1..];
    PickedNone(a, start, end);
    PickedNone(b, start, end);
    PickedOne(e, start, end);
    PickedAppend(a + [e], b, start, end);
    PickedAppend(a, [e], start, end);
    hide Picked, Numbered, Dragged;
    assert a + [e] + b == entries;
  }

  /**
   * Across entries: the tail of the first, each one between and the head of the
   * last, in order and a line break apart.
   */
  lemma SelectedAcross(entries: seq<Entry>, nextId: nat, s: Selection, start: Position, end: Position, i: nat, j: nat)
    requires Numbered(entries, nextId) && i < j < |entries| && Dragged(s, start, end)
    requires start.id == entries[i].id && start.offset <= |entries[i].text|
    requires end.id == entries[j].id && end.offset <= |entries[j].text|
    ensures SelectedText(entries, s) ==
            entries[i].text[start.offset..] + Between(entries[i + 1..j]) + "\n" + entries[j].text[..end.offset]
  {
    DraggedBounds(s, start, end);
    var first, m, last := entries[i], entries[i + 1..j], entries[j];
    AroundAndBetween(entries, nextId, start, end, i, j);
    hide *;
    EndParts(first, last, start, end);
    PickedOne(first, start, end);
    PickedOne(last, start, end);
    FiveParts(entries[..i], first, m, last, entries[j + 1..], start, end);
    OnlyMiddle([first.text[start.offset..]], Texts(m), [last.text[..end.offset]]);
    JoinBetween(first.text[start.offset..], m, last.text[..end.offset]);
    SelectedIs(entries, s, start, end);
  }

  lemma SelectedIs(entries: seq<Entry>, s: Selection, start: Position, end: Position)
    requires Bounds(s) == Some((start, end))
    ensures SelectedText(entries, s) == Join(Picked(entries, start, end))
  {
  }

  lemma OnlyMiddle(a: seq<string>, b: seq<string>, c: seq<string>)
    ensures [] + a + b + c + [] == a + b + c
  {
  }

  lemma AroundAndBetween(entries: seq<Entry>, nextId: nat, start: Position, end: Position, i: nat, j: nat)
    requires Numbered(entries, nextId) && i < j < |entries|
    requires start.id == entries[i].id && end.id == entries[j].id
    ensures start.id < end.id
    ensures Picked(entries[..i], start, end) == [] && Picked(entries[j + 1..], start, end) == []
    ensures Picked(entries[i + 1..j], start, end) == Texts(entries[i + 1..j])
    ensures entries[..i] + [entries[i]] + entries[i + 1..j] + [entries[j]] + entries[j + 1..] == entries
  {
    assert forall k :: 0 <= k < |entries| ==> entries[k].id == nextId - |entries| + k;
    hide *;
    PickedNone(entries[..i], start, end);
    PickedNone(entries[j + 1..], start, end);
    PickedWhole(entries[i + 1..j], start, end);
    InFive(entries, i, j);
  }

  lemma InFive<T>(s: seq<T>, i: nat, j: nat)
    requires i < j < |s|
    ensures s[..i] + [s[i]] + s[i + 1..j] + [s[j]] + s[j + 1..] == s
  {
    assert s[..i] + [s[i]] == s[..i + 1];
    assert s[..i + 1] + s[i + 1..j] == s[..j];
    assert s[..j] + [s[j]] == s[..j + 1];
  }

  lemma EndParts(first: Entry, last: Entry, start: Position, end: Position)
    requires first.id == start.id < end.id == last.id
    requires start.offset <= |first.text| && end.offset <= |last.text|
    ensures Part(first, start, end) == Some(first.text[start.offset..])
    ensures Part(last, start, end) == Some(last.text[..end.offset])
  {
    assert first.text[start.offset..|first.text|] == first.text[start.offset..];
    assert last.text[0..end.offset] == last.text[..end.offset];
  }

  lemma FiveParts(a: seq<Entry>, first: Entry, m: seq<Entry>, last: Entry, b: seq<Entry>, start: Position, end: Position)
    ensures Picked(a + [first] + m + [last] + b, start, end) ==
            Picked(a, start, end) + Picked([first], start, end) + Picked(m, start, end)
            + Picked([last], start, end) + Picked(b, start, end)
  {
    PickedAppend(a + [first] + m + [last], b, start, end);
    PickedAppend(a + [first] + m, [last], start, end);
    PickedAppend(a + [first], m, start, end);
    PickedAppend(a, [first], start, end);
  }

  /** "ell" of "hello", and "lo" and "wo" of "hello" and "world". */
  lemma SelectedInstances(level: Level)
    ensures var one := [Entry(0, "hello", level, 1)];
            var two := [Entry(0, "hello", level, 1), Entry(1, "world", level, 1)];
            && SelectedText(one, Drag(Position(0, 1), Position(0, 4))) == "ell"
            && SelectedText(two, Drag(Position(0, 3), Position(1, 2))) == "lo\nwo"
  {
    var one := [Entry(0, "hello", level, 1)];
    var two := [Entry(0, "hello", level, 1), Entry(1, "world", level, 1)];
    SelectedInside(one, 1, Drag(Position(0, 1), Position(0, 4)), Position(0, 1), Position(0, 4), 0);
    SelectedAcross(two, 2, Drag(Position(0, 3), Position(1, 2)), Position(0, 3), Position(1, 2), 0, 1);
    assert two[1..1] == [];
    hide SelectedText;
    assert "hello"[1..4] == "ell" && "hello"[3..] == "lo" && "world"[..2] == "wo";
    assert "lo" + "" + "\n" + "wo" == "lo\nwo";
  }

  /** A drag between two single positions. */
  function Drag(start: Position, end: Position): Selection {
    Selection(Hit(start, start), Hit(end, end), true)
  }

  /** Dragging from either end selects the same text. */
  lemma SwapKeepsSelection(entries: seq<Entry>, s: Selection)
    ensures SelectedText(entries, s.(anchor := s.focus, focus := s.anchor)) == SelectedText(entries, s)
  {
    var t := s.(anchor := s.focus, focus := s.anchor);
    SameExtremes(s.anchor.start, s.focus.start);
    SameExtremes(s.anchor.end, s.focus.end);
    assert Bounds(t) == Bounds(s);
  }

  lemma SameExtremes(a: Position, b: Position)
    ensures MinPosition(a, b) == MinPosition(b, a) && MaxPosition(a, b) == MaxPosition(b, a)
  {
  }

  lemma {:induction false} PickedAppend(a: seq<Entry>, b: seq<Entry>, start: Position, end: Position)
    ensures Picked(a + b, start, end) == Picked(a, start, end) + Picked(b, start, end)
  {
    if b == [] {
      assert a + b == a;
    } else {
      var n := |b| - 1;
      PickedAppend(a, b[..n], start, end);
      assert (a + b)[..|a + b| - 1] == a + b[..n];
    }
  }

  predicate Outside(e: Entry, s: Selection) {
    match Bounds(s)
    case None => true
    case Some((start, end)) => e.id < start.id || e.id > end.id
  }

  lemma PickedOne(e: Entry, start: Position, end: Position)
    ensures Picked([e], start, end) == match Part(e, start, end) case Some(t) => [t] case None => []
  {
    assert [e][..0] == [];
  }

  lemma PickedOutside(a: seq<Entry>, e: Entry, b: seq<Entry>, start: Position, end: Position)
    requires Part(e, start, end).None?
    ensures Picked(a + [e] + b, start, end) == Picked(a + b, start, end)
  {
    PickedOne(e, start, end);
    PickedAppend(a + [e], b, start, end);
    PickedAppend(a, [e], start, end);
    PickedAppend(a, b, start, end);
    hide Picked, Part;
    assert Picked(a, start, end) + [] == Picked(a, start, end);
  }

  /** A new entry is past the end of any selection made before it. */
  lemma ArrivalKeepsSelection(was: seq<Entry>, nextId: nat, text: string, level: Level, s: Selection)
    requires Bounds(s).Some? ==> Bounds(s).value.1.id < nextId
    ensures SelectedText(was + [Entry(nextId, text, level, 1)], s) == SelectedText(was, s)
  {
    if Bounds(s).Some? {
      var (start, end) := Bounds(s).value;
      var e := Entry(nextId, text, level, 1);
      PickedOutside(was, e, [], start, end);
      assert was + [e] + [] == was + [e] && was + [] == was;
    }
  }

  /** Evicting an entry outside the selection leaves the selected text alone. */
  lemma EvictionKeepsSelection(was: seq<Entry>, s: Selection)
    requires was != [] && Outside(was[0], s)
    ensures SelectedText(was[1..], s) == SelectedText(was, s)
  {
    if Bounds(s).Some? {
      var (start, end) := Bounds(s).value;
      PickedOutside([], was[0], was[1..], start, end);
      assert [] + [was[0]] + was[1..] == was && [] + was[1..] == was[1..];
    }
  }

  /** A repeat changes a counter, not the text. */
  lemma RepeatKeepsSelection(was: seq<Entry>, repeats: nat, s: Selection)
    requires was != []
    ensures SelectedText(was[..|was| - 1] + [was[|was| - 1].(repeats := repeats)], s) == SelectedText(was, s)
  {
    if Bounds(s).Some? {
      var (start, end) := Bounds(s).value;
      var init, last := was[..|was| - 1], was[|was| - 1];
      var bumped := last.(repeats := repeats);
      PickedAppend(init, [last], start, end);
      PickedAppend(init, [bumped], start, end);
      PickedOne(last, start, end);
      PickedOne(bumped, start, end);
      assert Part(last, start, end) == Part(bumped, start, end);
      hide Picked, Part;
      assert init + [last] == was;
    }
  }

  /**
   * Whatever is pushed, a selection of earlier entries still yields the same
   * text, as long as the entry that goes, if any, is outside it.
   */
  lemma PushKeepsSelection(was: seq<Entry>, nextId: nat, text: string, level: Level, s: Selection)
    requires History(was, nextId) && (Bounds(s).Some? ==> Bounds(s).value.1.id < nextId)
    requires |was| == MAX_ENTRIES ==> Outside(was[0], s)
    ensures SelectedText(Pushed(was, nextId, text, level), s) == SelectedText(was, s)
  {
    if IsRepeat(was, text, level) {
      RepeatKeepsSelection(was, Bump(was[|was| - 1].repeats), s);
    } else if |was| < MAX_ENTRIES {
      ArrivalKeepsSelection(was, nextId, text, level, s);
    } else {
      EvictionKeepsSelection(was, s);
      ArrivalKeepsSelection(was[1..], nextId, text, level, s);
    }
  }
}
