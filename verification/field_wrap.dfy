// Models `wrap_ranges` of src/app/draw.rs and `text_field_lines` of
// src/app/host_edit.rs: a value wrapped under a cursor. Offsets count
// characters, each with its display width.
module FieldWrap {
  import opened Options

  datatype Range = Range(start: nat, end: nat)

  datatype Glyph = Glyph(code: char, cells: nat)

  /** A character with its display width; a space is one cell wide. */
  type Char = c: Glyph | c.code == ' ' ==> c.cells == 1 witness Glyph(' ', 1)

  type Text = seq<Char>

  const BLANK: Char := Glyph(' ', 1)

  function Width(text: Text): nat {
    if text == [] then 0 else Width(text[..|text| - 1]) + text[|text| - 1].cells
  }

  /** Unchanged by splitting the text. */
  lemma {:induction false} WidthSplit(text: Text, i: nat)
    requires i <= |text|
    ensures Width(text) == Width(text[..i]) + Width(text[i..])
  {
    if i < |text| {
      var init := text[..|text| - 1];
      WidthSplit(init, i);
      assert init[..i] == text[..i];
      assert text[i..][..|text| - i - 1] == init[i..];
    } else {
      assert text[..i] == text && text[i..] == [];
    }
  }

  lemma WidthGrows(text: Text, start: nat, i: nat)
    requires start <= i < |text|
    ensures Width(text[start..i + 1]) == Width(text[start..i]) + text[i].cells
  {
    assert text[start..i + 1][..i - start] == text[start..i];
  }

  // ---------------------------------------------------------------------
  // What a wrapping promises
  // ---------------------------------------------------------------------

  /** The ranges cover the first `upto` characters exactly, in order, none empty. */
  ghost predicate Tiles(out: seq<Range>, upto: nat) {
    && (forall k :: 0 <= k < |out| ==> out[k].start < out[k].end)
    && (forall k :: 0 <= k < |out| - 1 ==> out[k].end == out[k + 1].start)
    && (if out == [] then upto == 0 else out[0].start == 0 && out[|out| - 1].end == upto)
  }

  predicate NoSpace(text: Text, from: nat, to: nat)
    requires from <= to <= |text|
  {
    forall j :: from <= j < to ==> text[j].code != ' '
  }

  /** The first character from i on that does not fit on a line from `start`, or the end of the text. */
  function FirstOver(text: Text, width: nat, start: nat, i: nat): (j: nat)
    requires start <= i <= |text|
    ensures i <= j <= |text|
    ensures j < |text| ==> Width(text[start..j + 1]) > width
    ensures i < j ==> Width(text[start..j]) <= width
    decreases |text| - i
  {
    if i < |text| && Width(text[start..i + 1]) <= width then FirstOver(text, width, start, i + 1) else i
  }

  /**
   * A line ends just past its last space before the character that does not fit;
   * or it has no space, and is broken right before that character.
   */
  predicate GoodBreak(text: Text, width: nat, r: Range) {
    && r.start < r.end < |text|
    && var o := FirstOver(text, width, r.start, r.end);
    && o < |text| && NoSpace(text, r.end, o)
    && (text[r.end - 1].code == ' ' || (r.end == o && NoSpace(text, r.start, r.end)))
  }

  predicate GoodBreaks(text: Text, width: nat, out: seq<Range>) {
    forall k :: 0 <= k < |out| ==> GoodBreak(text, width, out[k])
  }

  predicate InText(text: Text, out: seq<Range>) {
    forall k :: 0 <= k < |out| ==> out[k].start <= out[k].end <= |text|
  }

  /** The character that did not fit on the line before line k; for the first line, that of the text. */
  function Carried(text: Text, width: nat, out: seq<Range>, k: nat): nat
    requires InText(text, out) && k <= |out|
  {
    if k == 0 then 0 else FirstOver(text, width, out[k - 1].start, out[k - 1].end)
  }

  /** A line holds the character that starts it off, and fits unless that is its last. */
  predicate Filled(text: Text, width: nat, r: Range, from: nat) {
    && r.start <= from < r.end <= |text|
    && (Width(text[r.start..r.end]) <= width || r.end == from + 1)
  }

  predicate AllFilled(text: Text, width: nat, out: seq<Range>)
    requires InText(text, out)
  {
    forall k {:trigger Carried(text, width, out, k)} ::
      0 <= k < |out| ==> Filled(text, width, out[k], Carried(text, width, out, k))
  }

  /**
   * The ranges tile the text; each line but the last ends at a good break, and
   * every line is filled as far as it goes. No line is empty unless the text is.
   */
  ghost predicate IsWrapped(text: Text, width: nat, out: seq<Range>) {
    && out != [] && InText(text, out) && GoodBreaks(text, width, out[..|out| - 1])
    && if text == [] then out == [Range(0, 0)] else Tiles(out, |text|) && AllFilled(text, width, out)
  }

  // ---------------------------------------------------------------------
  // The loop
  // ---------------------------------------------------------------------

  /**
   * Where the loop stands before character i: a line from `start`, begun for
   * character `from`, `used` cells wide and last broken at `brk`.
   */
  predicate Standing(text: Text, width: nat, start: nat, from: nat, i: nat, used: nat, brk: Option<nat>) {
    && start <= i <= |text| && start <= from && (if i == 0 then from == 0 else from < i)
    && used == Width(text[start..i])
    && Spaced(text, start, i, brk) && (brk.Some? ==> from < brk.value)
    && (used <= width || i == from + 1)
  }

  /** `brk` is just past the last space of the line. */
  predicate Spaced(text: Text, start: nat, i: nat, brk: Option<nat>)
    requires start <= i <= |text|
  {
    match brk
    case None => NoSpace(text, start, i)
    case Some(b) => start < b <= i && text[b - 1].code == ' ' && NoSpace(text, b, i)
  }

  lemma {:induction false} WidthMonotone(text: Text, start: nat, i: nat, j: nat)
    requires start <= i <= j <= |text|
    ensures Width(text[start..i]) <= Width(text[start..j])
  {
    if i < j {
      WidthMonotone(text, start, i, j - 1);
      WidthGrows(text, start, j - 1);
    }
  }

  lemma WidthParts(text: Text, start: nat, cut: nat, i: nat)
    requires start <= cut <= i <= |text|
    ensures Width(text[start..cut]) + Width(text[cut..i]) == Width(text[start..i])
  {
    var line := text[start..i];
    WidthSplit(line, cut - start);
    assert line[..cut - start] == text[start..cut] && line[cut - start..] == text[cut..i];
  }

  /** Character i fits on the line, or is the first of the text. */
  lemma Keep(text: Text, width: nat, start: nat, from: nat, i: nat, used: nat, brk: Option<nat>)
    requires Standing(text, width, start, from, i, used, brk) && i < |text|
    requires used + text[i].cells <= width || i == start
    ensures Standing(text, width, start, from, i + 1, used + text[i].cells,
                     if text[i].code == ' ' then Some(i + 1) else brk)
  {
    WidthGrows(text, start, i);
    hide Width;
  }

  /** It does not: the line is cut, and what the cut left behind carries on with character i. */
  lemma Carry(text: Text, width: nat, start: nat, from: nat, i: nat, used: nat, brk: Option<nat>)
    requires Standing(text, width, start, from, i, used, brk)
    requires start < i < |text| && used + text[i].cells > width
    ensures brk.Some? ==> start < brk.value <= i
    ensures var cut := if brk.Some? then brk.value else i;
            && GoodBreak(text, width, Range(start, cut)) && Filled(text, width, Range(start, cut), from)
            && FirstOver(text, width, start, cut) == i
            && Standing(text, width, cut, i, i + 1, Width(text[cut..i]) + text[i].cells,
                        if text[i].code == ' ' then Some(i + 1) else None)
  {
    hide Width, FirstOver;
    var cut := if brk.Some? then brk.value else i;
    WidthGrows(text, start, i);
    WidthGrows(text, cut, i);
    WidthMonotone(text, start, cut, i);
    FirstOverIs(text, width, start, cut, i);
  }

  lemma FirstOverIs(text: Text, width: nat, start: nat, cut: nat, i: nat)
    requires start <= cut <= i < |text| && Width(text[start..i + 1]) > width
    requires cut < i ==> Width(text[start..i]) <= width
    ensures FirstOver(text, width, start, cut) == i
  {
    var j := FirstOver(text, width, start, cut);
    if j < i {
      WidthMonotone(text, start, j + 1, i);
    } else if i < j {
      WidthMonotone(text, start, i + 1, j);
    }
    hide Width, FirstOver;
  }

  /** The lines so far: they tile the text up to `upto`, are filled, and end at good breaks. */
  ghost predicate Lines(text: Text, width: nat, out: seq<Range>, upto: nat) {
    Tiles(out, upto) && InText(text, out) && AllFilled(text, width, out) && GoodBreaks(text, width, out)
  }

  lemma AddLine(text: Text, width: nat, out: seq<Range>, upto: nat, cut: nat)
    requires Lines(text, width, out, upto) && upto < cut <= |text|
    requires GoodBreak(text, width, Range(upto, cut))
    requires Filled(text, width, Range(upto, cut), Carried(text, width, out, |out|))
    ensures InText(text, out + [Range(upto, cut)]) && Lines(text, width, out + [Range(upto, cut)], cut)
    ensures Carried(text, width, out + [Range(upto, cut)], |out| + 1) == FirstOver(text, width, upto, cut)
  {
    FilledOneMore(text, width, out, Range(upto, cut));
    TilesOneMore(out, upto, cut);
    hide GoodBreak, AllFilled, Tiles, Carried, FirstOver;
  }

  lemma TilesOneMore(out: seq<Range>, upto: nat, cut: nat)
    requires Tiles(out, upto) && upto < cut
    ensures Tiles(out + [Range(upto, cut)], cut)
  {
  }

  lemma FilledOneMore(text: Text, width: nat, out: seq<Range>, r: Range)
    requires InText(text, out) && AllFilled(text, width, out)
    requires r.start <= r.end <= |text| && Filled(text, width, r, Carried(text, width, out, |out|))
    ensures InText(text, out + [r]) && AllFilled(text, width, out + [r])
    ensures Carried(text, width, out + [r], |out| + 1) == FirstOver(text, width, r.start, r.end)
  {
    var all := out + [r];
    hide Filled, FirstOver;
    forall k | 0 <= k < |all|
      ensures Filled(text, width, all[k], Carried(text, width, all, k))
    {
      assert k < |out| ==> Filled(text, width, out[k], Carried(text, width, out, k));
    }
  }

  method WrapRanges(text: Text, width0: nat) returns (out: seq<Range>)
    ensures IsWrapped(text, if width0 == 0 then 1 else width0, out)
  {
    hide *;
    var width: nat := if width0 == 0 then 1 else width0;
    out := [];
    Begin(text, width);
    var start: nat, used: nat := 0, 0;
    ghost var from := 0;
    var brk: Option<nat> := None;
    for i := 0 to |text|
      invariant InText(text, out) && Lines(text, width, out, start) && from == Carried(text, width, out, |out|)
      invariant start <= i && Standing(text, width, start, from, i, used, brk)
    {
      var c := text[i];
      var w := c.cells;
      if used + w > width && i > start {
        Carry(text, width, start, from, i, used, brk);
        var cut := if brk.Some? && brk.value > start then brk.value else i;
        AddLine(text, width, out, start, cut);
        out := out + [Range(start, cut)];
        used := Width(text[cut..i]);
        start, from := cut, i;
        brk := None;
      } else {
        Keep(text, width, start, from, i, used, brk);
      }
      used := used + w;
      if c.code == ' ' {
        brk := Some(i + 1);
      }
    }
    Finish(text, width, out, start, used, brk);
    out := out + [Range(start, |text|)];
  }

  lemma Begin(text: Text, width: nat)
    ensures InText(text, []) && Lines(text, width, [], 0) && Carried(text, width, [], 0) == 0
    ensures Standing(text, width, 0, 0, 0, 0, None)
  {
  }

  lemma Finish(text: Text, width: nat, out: seq<Range>, start: nat, used: nat, brk: Option<nat>)
    requires InText(text, out) && Lines(text, width, out, start)
    requires Standing(text, width, start, Carried(text, width, out, |out|), |text|, used, brk)
    ensures IsWrapped(text, width, out + [Range(start, |text|)])
  {
    LinesHold(text, width, out, start);
    if text == [] {
      NoLines(out);
      assert [Range(0, 0)][..0] == [];
      hide *;
      OnlyLine(text, width);
    } else {
      LastIsFilled(text, width, start, Carried(text, width, out, |out|), used, brk);
      hide *;
      FilledOneMore(text, width, out, Range(start, |text|));
      TilesOneMore(out, start, |text|);
      assert (out + [Range(start, |text|)])[..|out|] == out;
      Wraps(text, width, out + [Range(start, |text|)]);
    }
  }

  lemma LinesHold(text: Text, width: nat, out: seq<Range>, upto: nat)
    requires InText(text, out) && Lines(text, width, out, upto)
    ensures Tiles(out, upto) && AllFilled(text, width, out) && GoodBreaks(text, width, out)
    ensures upto <= |text|
  {
  }

  lemma LastIsFilled(text: Text, width: nat, start: nat, from: nat, used: nat, brk: Option<nat>)
    requires Standing(text, width, start, from, |text|, used, brk) && text != []
    ensures start < |text| && Filled(text, width, Range(start, |text|), from)
  {
  }

  lemma OnlyLine(text: Text, width: nat)
    requires text == []
    ensures IsWrapped(text, width, [] + [Range(0, 0)])
  {
    assert [] + [Range(0, 0)] == [Range(0, 0)] && [Range(0, 0)][..0] == [];
  }

  lemma Wraps(text: Text, width: nat, all: seq<Range>)
    requires text != [] && all != [] && InText(text, all) && Tiles(all, |text|)
    requires AllFilled(text, width, all) && GoodBreaks(text, width, all[..|all| - 1])
    ensures IsWrapped(text, width, all)
  {
  }

  lemma NoLines(out: seq<Range>)
    requires Tiles(out, 0)
    ensures out == []
  {
  }

  // ---------------------------------------------------------------------
  // There is only one such wrapping
  // ---------------------------------------------------------------------

  /** What does not fit after a line is the first character past `from` that does not fit on it. */
  lemma NextOver(text: Text, width: nat, r: Range, from: nat)
    requires Filled(text, width, r, from)
    ensures FirstOver(text, width, r.start, r.end) == FirstOver(text, width, r.start, from + 1)
  {
    hide Width, FirstOver;
    var o, j := FirstOver(text, width, r.start, from + 1), FirstOver(text, width, r.start, r.end);
    if o < r.end {
      WidthMonotone(text, r.start, o + 1, r.end);
    } else if j < o {
      WidthMonotone(text, r.start, j + 1, o);
    } else if o < j {
      WidthMonotone(text, r.start, o + 1, j);
    }
  }

  /** A line or the end of the text: where it ends is settled by where it starts. */
  predicate GoodEnd(text: Text, width: nat, r: Range) {
    r.end == |text| || GoodBreak(text, width, r)
  }

  lemma LineIsUnique(text: Text, width: nat, r: Range, s: Range, from: nat)
    requires r.start == s.start && Filled(text, width, r, from) && Filled(text, width, s, from)
    requires GoodEnd(text, width, r) && GoodEnd(text, width, s)
    ensures r == s
  {
    NextOver(text, width, r, from);
    NextOver(text, width, s, from);
    hide Filled;
    var o := FirstOver(text, width, r.start, r.end);
    assert r.end <= o && s.end <= o;
    hide FirstOver;
    if r.end < s.end {
      EndIsUnique(text, width, r, s);
    } else if s.end < r.end {
      EndIsUnique(text, width, s, r);
    }
  }

  lemma EndIsUnique(text: Text, width: nat, r: Range, s: Range)
    requires r.start == s.start < r.end && s.start < s.end <= |text| && r.end <= |text|
    requires FirstOver(text, width, r.start, r.end) == FirstOver(text, width, s.start, s.end)
    requires GoodEnd(text, width, r) && GoodEnd(text, width, s)
    ensures r.end >= s.end
  {
    hide Width, FirstOver;
  }

  lemma {:induction false} SameLine(text: Text, width: nat, a: seq<Range>, b: seq<Range>, k: nat)
    requires IsWrapped(text, width, a) && IsWrapped(text, width, b) && k < |a| && k < |b|
    ensures a[k] == b[k]
  {
    if text != [] {
      if k > 0 {
        SameLine(text, width, a, b, k - 1);
      }
      EndsWell(text, width, a, k);
      EndsWell(text, width, b, k);
      assert Carried(text, width, a, k) == Carried(text, width, b, k);
      hide Filled, GoodEnd, GoodBreak, Carried;
      LineIsUnique(text, width, a[k], b[k], Carried(text, width, a, k));
    }
  }

  lemma EndsWell(text: Text, width: nat, out: seq<Range>, k: nat)
    requires IsWrapped(text, width, out) && k < |out|
    ensures GoodEnd(text, width, out[k]) && (out[k].end == |text| <==> k == |out| - 1)
  {
    if k < |out| - 1 {
      assert GoodBreak(text, width, out[..|out| - 1][k]);
    }
    hide FirstOver, NoSpace;
  }

  /** The source makes this wrapping and no other has these properties. */
  lemma WrappingIsUnique(text: Text, width: nat, a: seq<Range>, b: seq<Range>)
    requires IsWrapped(text, width, a) && IsWrapped(text, width, b)
    ensures a == b
  {
    var n := if |a| < |b| then |a| else |b|;
    forall k | 0 <= k < n
      ensures a[k] == b[k]
    {
      SameLine(text, width, a, b, k);
    }
    EndsWell(text, width, a, n - 1);
    EndsWell(text, width, b, n - 1);
    hide IsWrapped;
  }

  // ---------------------------------------------------------------------
  // How wide a line can be
  // ---------------------------------------------------------------------

  /** No character is wider than n cells. */
  predicate AtMost(text: Text, n: nat) {
    forall i :: 0 <= i < |text| ==> text[i].cells <= n
  }

  function LineWidth(text: Text, r: Range): nat
    requires r.start <= r.end <= |text|
  {
    Width(text[r.start..r.end])
  }

  /** A line of one cell that ends in a space: a blank alone, for all one sees. */
  predicate LoneSpace(text: Text, r: Range)
    requires r.start <= r.end <= |text|
  {
    r.start < r.end && text[r.end - 1].code == ' ' && LineWidth(text, r) == 1
  }

  function Before(ranges: seq<Range>, k: nat): Option<Range>
    requires k < |ranges|
  {
    if k == 0 then None else Some(ranges[k - 1])
  }

  /**
   * Character c, two cells wide, sticks out of line r: the width is one, or the
   * line before is a lone space and the word c belongs to lacks one cell of the
   * width before it.
   */
  predicate Overhangs(text: Text, width: nat, before: Option<Range>, r: Range, c: nat)
    requires r.start <= c < |text|
  {
    && text[c].cells == 2
    && if width == 1 then c < r.end
       else before.Some? && before.value.start <= before.value.end == r.start && LoneSpace(text, before.value)
            && NoSpace(text, r.start, c) && Width(text[r.start..c]) == width - 1
  }

  /**
   * A line begun for character `from`: what else is carried onto it has no space
   * and leaves room for all the line before takes, a space among it.
   */
  predicate Begun(text: Text, width: nat, before: Option<Range>, r: Range, from: nat) {
    && Filled(text, width, r, from)
    && (before.Some? ==> before.value.start < before.value.end == r.start
                         && FirstOver(text, width, before.value.start, r.start) == from)
    && (from > r.start ==> before.Some? && text[r.start - 1].code == ' ' && NoSpace(text, r.start, from)
                           && 1 <= LineWidth(text, before.value) <= width - Width(text[r.start..from]))
  }

  lemma LineBegins(text: Text, width: nat, ranges: seq<Range>, k: nat)
    requires IsWrapped(text, width, ranges) && k < |ranges| && text != []
    ensures Begun(text, width, Before(ranges, k), ranges[k], Carried(text, width, ranges, k))
  {
    var from := Carried(text, width, ranges, k);
    assert Filled(text, width, ranges[k], from);
    if k > 0 {
      EndsWell(text, width, ranges, k - 1);
      LineAfter(text, width, ranges[k - 1], ranges[k], from);
    }
    hide Filled, FirstOver, LineWidth, NoSpace;
  }

  lemma LineAfter(text: Text, width: nat, p: Range, r: Range, from: nat)
    requires GoodBreak(text, width, p) && p.end == r.start && FirstOver(text, width, p.start, p.end) == from
    requires Filled(text, width, r, from)
    ensures Begun(text, width, Some(p), r, from)
  {
    if from > p.end {
      WidthParts(text, p.start, p.end, from);
      WidthGrows(text, p.start, p.end - 1);
    }
    hide Width, FirstOver, NoSpace;
  }

  /** A character reaches past the width exactly when it is one of those that overhang. */
  lemma StickingOut(text: Text, width: nat, before: Option<Range>, r: Range, from: nat, c: nat)
    requires width >= 1 && Begun(text, width, before, r, from) && AtMost(text, 2) && r.start <= c < r.end
    ensures Width(text[r.start..c + 1]) > width <==> Overhangs(text, width, before, r, c)
  {
    assert Width(text[r.start..r.start]) == 0;
    hide Width, NoSpace, FirstOver;
    WidthGrows(text, r.start, c);
    if c + 1 < r.end {
      InnerFits(text, width, before, r, from, c);
    }
  }

  lemma InnerFits(text: Text, width: nat, before: Option<Range>, r: Range, from: nat, c: nat)
    requires width >= 1 && Begun(text, width, before, r, from) && r.start <= c && c + 1 < r.end
    ensures Width(text[r.start..c + 1]) <= width
    ensures before.Some? && LoneSpace(text, before.value) && Width(text[r.start..c]) == width - 1 ==> text[c].cells < 2
  {
    hide Width, NoSpace, FirstOver;
    WidthGrows(text, r.start, c);
    WidthMonotone(text, r.start, c + 1, r.end);
    if c < from {
      WidthMonotone(text, r.start, c + 1, from);
    }
  }

  /** After a lone space, what does not fit is the wide character that overhangs the next line. */
  lemma LoneSpaceCarries(text: Text, width: nat, p: Range, c: nat)
    requires p.start <= p.end <= c < |text| && LoneSpace(text, p)
    requires text[c].cells == 2 && Width(text[p.end..c]) == width - 1
    ensures FirstOver(text, width, p.start, p.end) == c
  {
    WidthParts(text, p.start, p.end, c);
    WidthParts(text, p.start, p.end, c + 1);
    WidthGrows(text, p.end, c);
    FirstOverIs(text, width, p.start, p.end, c);
    hide Width, FirstOver;
  }

  /** It is the last of its line. */
  lemma OverhangEnds(text: Text, width: nat, before: Option<Range>, r: Range, from: nat, c: nat)
    requires width >= 1 && Begun(text, width, before, r, from) && AtMost(text, 2) && r.start <= c < |text|
    requires Overhangs(text, width, before, r, c)
    ensures c + 1 == r.end
  {
    hide Width, NoSpace, FirstOver;
    if width > 1 {
      LoneSpaceCarries(text, width, before.value, c);
    }
    WidthGrows(text, r.start, c);
    if c + 1 < r.end {
      InnerFits(text, width, before, r, from, c);
    }
  }

  /** A line is too wide exactly when a character overhangs it. */
  lemma OverIff(text: Text, width: nat, ranges: seq<Range>, k: nat)
    requires width >= 1 && IsWrapped(text, width, ranges) && AtMost(text, 2) && k < |ranges|
    ensures LineWidth(text, ranges[k]) > width <==>
            exists c :: ranges[k].start <= c < |text| && Overhangs(text, width, Before(ranges, k), ranges[k], c)
  {
    if text != [] {
      LineBegins(text, width, ranges, k);
      hide *;
      OverLineIff(text, width, Before(ranges, k), ranges[k], Carried(text, width, ranges, k));
    } else {
      assert text[ranges[k].start..ranges[k].end] == [];
    }
  }

  lemma OverLineIff(text: Text, width: nat, before: Option<Range>, r: Range, from: nat)
    requires width >= 1 && Begun(text, width, before, r, from) && AtMost(text, 2)
    ensures r.start < r.end <= |text|
    ensures LineWidth(text, r) > width <==> exists c :: r.start <= c < |text| && Overhangs(text, width, before, r, c)
  {
    assert r.start < r.end <= |text|;
    hide Begun, Width, AtMost, Overhangs;
    StickingOut(text, width, before, r, from, r.end - 1);
    if c :| r.start <= c < |text| && Overhangs(text, width, before, r, c) {
      OverhangEnds(text, width, before, r, from, c);
    }
  }

  /** So one-cell characters always fit, and two-cell ones reach one cell over at most. */
  lemma LineFits(text: Text, width: nat, ranges: seq<Range>, k: nat)
    requires width >= 1 && IsWrapped(text, width, ranges) && k < |ranges|
    ensures AtMost(text, 1) ==> LineWidth(text, ranges[k]) <= width
    ensures AtMost(text, 2) ==> LineWidth(text, ranges[k]) <= width + 1
  {
    if text != [] {
      LineBegins(text, width, ranges, k);
      hide *;
      BegunFits(text, width, Before(ranges, k), ranges[k], Carried(text, width, ranges, k));
    } else {
      assert text[ranges[k].start..ranges[k].end] == [];
    }
  }

  lemma BegunFits(text: Text, width: nat, before: Option<Range>, r: Range, from: nat)
    requires width >= 1 && Begun(text, width, before, r, from)
    ensures r.start < r.end <= |text|
    ensures AtMost(text, 1) ==> LineWidth(text, r) <= width
    ensures AtMost(text, 2) ==> LineWidth(text, r) <= width + 1
  {
    assert Width(text[r.start..r.start]) == 0;
    hide Width, NoSpace, FirstOver;
    WidthGrows(text, r.start, from);
  }

  /** No line of the wrapping is wider than the width. */
  predicate KeepsToWidth(text: Text, width: nat, ranges: seq<Range>)
    requires InText(text, ranges)
  {
    forall k :: 0 <= k < |ranges| ==> LineWidth(text, ranges[k]) <= width
  }

  /** The lines keep to the width exactly when no line is overhung; at width one, when no character is wide. */
  lemma KeepsToWidthIff(text: Text, width: nat, ranges: seq<Range>)
    requires width >= 1 && IsWrapped(text, width, ranges) && AtMost(text, 2)
    ensures KeepsToWidth(text, width, ranges) <==>
            if width == 1 then AtMost(text, 1)
            else forall k, c :: 0 <= k < |ranges| && ranges[k].start <= c < |text| ==>
                   !Overhangs(text, width, Before(ranges, k), ranges[k], c)
  {
    forall k: nat | k < |ranges|
      ensures LineWidth(text, ranges[k]) > width <==>
              exists c :: ranges[k].start <= c < |text| && Overhangs(text, width, Before(ranges, k), ranges[k], c)
    {
      OverIff(text, width, ranges, k);
    }
    if width == 1 {
      if c :| 0 <= c < |text| && text[c].cells > 1 {
        var k := SomeHolder(ranges, |text|, c);
        assert Overhangs(text, width, Before(ranges, k), ranges[k], c);
      }
      forall k: nat | AtMost(text, 1) && k < |ranges|
        ensures LineWidth(text, ranges[k]) <= width
      {
        LineFits(text, width, ranges, k);
      }
    }
    hide IsWrapped, LineWidth, Before;
  }

  const WIDE: Char := Glyph('w', 2)

  /** " bb" and a wide character at width three: that is carried along with "bb" to a line of four cells. */
  lemma WideCharacterIsCarriedOver()
    ensures var text: Text := [BLANK, Glyph('b', 1), Glyph('b', 1), WIDE];
            var ranges := [Range(0, 1), Range(1, 4)];
            IsWrapped(text, 3, ranges) && LineWidth(text, ranges[1]) == 4
  {
    var text: Text := [BLANK, Glyph('b', 1), Glyph('b', 1), WIDE];
    var ranges := [Range(0, 1), Range(1, 4)];
    FourWidths(text);
    FirstOverIs(text, 3, 0, 1, 3);
    hide Width, FirstOver;
    assert Carried(text, 3, ranges, 1) == 3;
    assert Filled(text, 3, ranges[0], 0) && Filled(text, 3, ranges[1], 3);
    assert GoodBreak(text, 3, ranges[0]);
    assert ranges[..1] == [ranges[0]];
  }

  lemma FourWidths(text: Text)
    requires |text| == 4 && text[0].cells == text[1].cells == text[2].cells == 1 && text[3].cells == 2
    ensures Width(text[0..1]) == 1 && Width(text[0..3]) == 3 && Width(text[0..4]) == 5 && Width(text[1..4]) == 4
  {
    assert text[0..0] == [] && Width([]) == 0;
    WidthGrows(text, 0, 0);
    WidthGrows(text, 0, 1);
    WidthGrows(text, 0, 2);
    WidthGrows(text, 0, 3);
    WidthParts(text, 0, 1, 4);
  }

  // ---------------------------------------------------------------------
  // The cursor
  // ---------------------------------------------------------------------

  /** One drawn line: plain, or with the character under the cursor set apart. */
  datatype Line = Plain(text: Text) | Cursor(head: Text, under: Char, rest: Text)

  predicate HoldsCursor(r: Range, cursor: nat, last: bool) {
    r.start <= cursor && (cursor < r.end || last)
  }

  function DrawLine(text: Text, r: Range, cursor: Option<nat>, last: bool): Line
    requires r.start <= r.end <= |text| && (cursor.Some? ==> cursor.value <= |text|)
    requires last ==> r.end == |text|
  {
    if cursor.Some? && HoldsCursor(r, cursor.value, last) then
      var c := cursor.value;
      Cursor(text[r.start..c], if c < r.end then text[c] else BLANK, if c < r.end then text[c + 1..r.end] else [])
    else Plain(text[r.start..r.end])
  }

  function Drawn(text: Text, ranges: seq<Range>, cursor: Option<nat>): seq<Line>
    requires ranges != [] && (cursor.Some? ==> cursor.value <= |text|)
    requires forall k :: 0 <= k < |ranges| ==> ranges[k].start <= ranges[k].end <= |text|
    requires ranges[|ranges| - 1].end == |text|
  {
    seq(|ranges|, k requires 0 <= k < |ranges| => DrawLine(text, ranges[k], cursor, k == |ranges| - 1))
  }

  function Shown(line: Line): Text {
    match line
    case Plain(t) => t
    case Cursor(head, under, rest) => head + [under] + rest
  }

  function AllShown(lines: seq<Line>): Text {
    if lines == [] then [] else AllShown(lines[..|lines| - 1]) + Shown(lines[|lines| - 1])
  }

  /** Which of the ranges holds position c, the last one holding the end of the text. */
  ghost predicate Holder(ranges: seq<Range>, c: nat, k: nat) {
    k < |ranges| && HoldsCursor(ranges[k], c, k == |ranges| - 1)
  }

  lemma {:induction false} TilesAreOrdered(out: seq<Range>, upto: nat, i: nat, j: nat)
    requires Tiles(out, upto) && i < j < |out|
    ensures out[i].end <= out[j].start
  {
    if i + 1 < j {
      TilesAreOrdered(out, upto, i, j - 1);
    }
  }

  lemma {:induction false} SomeHolder(out: seq<Range>, upto: nat, c: nat) returns (k: nat)
    requires Tiles(out, upto) && c < upto
    ensures k < |out| && out[k].start <= c < out[k].end
  {
    k := |out| - 1;
    if c < out[k].start {
      assert Tiles(out[..k], out[k].start);
      k := SomeHolder(out[..k], out[k].start, c);
    }
  }

  /** Whatever the text and the width, every cursor position is on exactly one line. */
  lemma CursorOnExactlyOneLine(text: Text, width: nat, ranges: seq<Range>, c: nat)
    requires IsWrapped(text, width, ranges) && c <= |text|
    ensures exists k: nat :: Holder(ranges, c, k) && forall j: nat :: Holder(ranges, c, j) ==> j == k
  {
    var n := |ranges| - 1;
    var k := n;
    if c < |text| {
      k := SomeHolder(ranges, |text|, c);
    }
    assert Holder(ranges, c, k);
    forall j: nat | Holder(ranges, c, j)
      ensures j == k
    {
      if j < k {
        TilesAreOrdered(ranges, |text|, j, k);
      } else if k < j {
        TilesAreOrdered(ranges, |text|, k, j);
      }
    }
  }

  lemma ShownLine(text: Text, r: Range, cursor: Option<nat>, last: bool)
    requires r.start <= r.end <= |text| && (cursor.Some? ==> cursor.value <= |text|)
    requires last ==> r.end == |text|
    ensures Shown(DrawLine(text, r, cursor, last)) ==
            text[r.start..r.end] + if last && cursor == Some(|text|) then [BLANK] else []
  {
    if cursor.Some? && HoldsCursor(r, cursor.value, last) {
      var c := cursor.value;
      if c < r.end {
        assert text[r.start..c] + [text[c]] + text[c + 1..r.end] == text[r.start..r.end];
      } else {
        assert text[r.start..c] + [BLANK] + [] == text[r.start..c] + [BLANK];
      }
    }
  }

  lemma OneMoreShown(lines: seq<Line>, n: nat)
    requires n < |lines|
    ensures AllShown(lines[..n + 1]) == AllShown(lines[..n]) + Shown(lines[n])
  {
    assert lines[..n + 1][..n] == lines[..n];
  }

  lemma OneMoreSlice(text: Text, a: nat, b: nat)
    requires a <= b <= |text|
    ensures text[..a] + text[a..b] == text[..b]
  {
  }

  lemma {:induction false} ShownUpTo(text: Text, ranges: seq<Range>, cursor: Option<nat>, n: nat)
    requires Tiles(ranges, |text|) && ranges != [] && (cursor.Some? ==> cursor.value <= |text|)
    requires forall k :: 0 <= k < |ranges| ==> ranges[k].start <= ranges[k].end <= |text|
    requires n < |ranges|
    ensures AllShown(Drawn(text, ranges, cursor)[..n]) == text[..ranges[n].start]
  {
    if n > 0 {
      var lines := Drawn(text, ranges, cursor);
      var r := ranges[n - 1];
      ShownUpTo(text, ranges, cursor, n - 1);
      assert lines[n - 1] == DrawLine(text, r, cursor, false);
      assert r.end == ranges[n].start;
      hide AllShown, Drawn, DrawLine, Shown, Tiles;
      OneMoreShown(lines, n - 1);
      ShownLine(text, r, cursor, false);
      OneMoreSlice(text, r.start, r.end);
      assert text[r.start..r.end] + [] == text[r.start..r.end];
    }
  }

  /** The lines before line n show the text before it. */
  lemma ShownBefore(text: Text, width: nat, ranges: seq<Range>, cursor: Option<nat>, n: nat)
    requires IsWrapped(text, width, ranges) && (cursor.Some? ==> cursor.value <= |text|)
    requires ranges[|ranges| - 1].end == |text| && n < |ranges|
    ensures AllShown(Drawn(text, ranges, cursor)[..n]) == text[..ranges[n].start]
  {
    if text == [] {
      assert AllShown(Drawn(text, ranges, cursor)[..n]) == [];
    } else {
      ShownUpTo(text, ranges, cursor, n);
    }
  }

  /** The lines show the text, every character once and in order, and one blank for a cursor at its end. */
  lemma LinesShowTheText(text: Text, width: nat, ranges: seq<Range>, cursor: Option<nat>)
    requires IsWrapped(text, width, ranges) && (cursor.Some? ==> cursor.value <= |text|)
    requires ranges[|ranges| - 1].end == |text|
    ensures AllShown(Drawn(text, ranges, cursor)) == text + if cursor == Some(|text|) then [BLANK] else []
  {
    var n := |ranges| - 1;
    var lines := Drawn(text, ranges, cursor);
    assert |lines| == n + 1 && lines[n] == DrawLine(text, ranges[n], cursor, true);
    assert ranges[n].start <= |text|;
    hide *;
    ShownBefore(text, width, ranges, cursor, n);
    ShownLine(text, ranges[n], cursor, true);
    LastShown(lines);
    Whole(text, ranges[n].start, if cursor == Some(|text|) then [BLANK] else []);
  }

  lemma LastShown(lines: seq<Line>)
    requires lines != []
    ensures AllShown(lines) == AllShown(lines[..|lines| - 1]) + Shown(lines[|lines| - 1])
  {
  }

  lemma Whole(text: Text, a: nat, tail: Text)
    requires a <= |text|
    ensures text[..a] + (text[a..|text|] + tail) == text + tail
  {
    assert text[..a] + text[a..|text|] == text;
  }

  // ---------------------------------------------------------------------
  // The drawn lines
  // ---------------------------------------------------------------------

  /** The character a cursor at c stands on, a blank at the end of the text. */
  function Under(text: Text, c: nat): Char {
    if c < |text| then text[c] else BLANK
  }

  /** The cursor is drawn on line k, on its character and with the text before it before it, and on no other line. */
  ghost predicate CursorOn(text: Text, lines: seq<Line>, c: nat, k: nat)
    requires c <= |text|
  {
    && k < |lines| && lines[k].Cursor? && lines[k].under == Under(text, c)
    && AllShown(lines[..k]) + lines[k].head == text[..c]
    && forall j :: 0 <= j < |lines| && j != k ==> lines[j].Plain?
  }

  lemma CursorIsDrawn(text: Text, width: nat, ranges: seq<Range>, c: nat) returns (k: nat)
    requires IsWrapped(text, width, ranges) && c <= |text| && ranges[|ranges| - 1].end == |text|
    ensures CursorOn(text, Drawn(text, ranges, Some(c)), c, k)
  {
    CursorOnExactlyOneLine(text, width, ranges, c);
    k :| Holder(ranges, c, k) && forall j: nat :: Holder(ranges, c, j) ==> j == k;
    assert k < |ranges|;
    var lines := Drawn(text, ranges, Some(c));
    assert |lines| == |ranges|;
    hide IsWrapped, Drawn, Holder, AllShown;
    HolderEnds(text, width, ranges, c, k);
    ShownBefore(text, width, ranges, Some(c), k);
    DrawnAt(text, width, ranges, c, k);
    OneMoreSlice(text, ranges[k].start, c);
    forall j | 0 <= j < |lines| && j != k
      ensures lines[j].Plain?
    {
      DrawnAt(text, width, ranges, c, j);
    }
  }

  lemma DrawnAt(text: Text, width: nat, ranges: seq<Range>, c: nat, j: nat)
    requires IsWrapped(text, width, ranges) && c <= |text| && ranges[|ranges| - 1].end == |text| && j < |ranges|
    ensures var line := Drawn(text, ranges, Some(c))[j];
            if Holder(ranges, c, j)
            then line.Cursor? && line.under == Under(text, c) && ranges[j].start <= c
                 && line.head == text[ranges[j].start..c]
            else line.Plain?
  {
    hide GoodBreak, AllFilled;
    if Holder(ranges, c, j) {
      HolderEnds(text, width, ranges, c, j);
    }
  }

  /** The line that holds a position runs past it, or ends with the text at it. */
  lemma HolderEnds(text: Text, width: nat, ranges: seq<Range>, c: nat, k: nat)
    requires IsWrapped(text, width, ranges) && c <= |text| && ranges[|ranges| - 1].end == |text|
    requires Holder(ranges, c, k)
    ensures ranges[k].start <= c <= ranges[k].end <= |text|
    ensures c < |text| <==> c < ranges[k].end
  {
    hide GoodBreak, AllFilled;
    if k < |ranges| - 1 {
      TilesAreOrdered(ranges, |text|, k, |ranges| - 1);
    }
  }

  /**
   * With the keyboard in the field the cursor is drawn exactly once, on the
   * character it stands on; otherwise it is not drawn. The lines show every
   * character once and in order.
   */
  method TextFieldLines(text: Text, position: nat, focused: bool, width: nat) returns (lines: seq<Line>)
    ensures var c := if position < |text| then position else |text|;
            && (focused ==> exists k :: CursorOn(text, lines, c, k))
            && (!focused ==> forall j :: 0 <= j < |lines| ==> lines[j].Plain?)
            && AllShown(lines) == text + (if focused && c == |text| then [BLANK] else [])
            && exists ranges: seq<Range> ::
                 IsWrapped(text, if width == 0 then 1 else width, ranges) && ranges[|ranges| - 1].end == |text|
                 && lines == Drawn(text, ranges, if focused then Some(c) else None)
  {
    var c := if position < |text| then position else |text|;
    var cursor := if focused then Some(c) else None;
    var wrapped := WrapRanges(text, width);
    ghost var cells: nat := if width == 0 then 1 else width;
    lines := Drawn(text, wrapped, cursor);
    LinesShowTheText(text, cells, wrapped, cursor);
    if focused {
      var k := CursorIsDrawn(text, cells, wrapped, c);
    }
    hide IsWrapped, AllShown, CursorOn;
  }

  // ---------------------------------------------------------------------
  // Whether the cursor is inside the width
  // ---------------------------------------------------------------------

  /** The column of a cursor on its line. */
  function Column(text: Text, r: Range, c: nat): nat
    requires r.start <= c <= r.end <= |text|
  {
    Width(text[r.start..c])
  }

  /** The cells of the cursor are inside the width. */
  predicate Inside(text: Text, width: nat, r: Range, c: nat)
    requires r.start <= c <= r.end <= |text|
  {
    Column(text, r, c) + Under(text, c).cells <= width
  }

  /**
   * With characters of up to two cells, a cursor on a character is outside
   * exactly when that overhangs its line.
   */
  lemma CursorInsideIff(text: Text, width: nat, ranges: seq<Range>, c: nat, k: nat)
    requires width >= 1 && IsWrapped(text, width, ranges) && ranges[|ranges| - 1].end == |text|
    requires c < |text| && Holder(ranges, c, k) && AtMost(text, 2)
    ensures ranges[k].start <= c < ranges[k].end
    ensures Inside(text, width, ranges[k], c) <==> !Overhangs(text, width, Before(ranges, k), ranges[k], c)
    ensures AtMost(text, 1) ==> Inside(text, width, ranges[k], c)
  {
    HolderEnds(text, width, ranges, c, k);
    var r, from := ranges[k], Carried(text, width, ranges, k);
    LineBegins(text, width, ranges, k);
    hide Begun, IsWrapped, Before, Carried, Width, Holder;
    StickingOut(text, width, Before(ranges, k), r, from, c);
    WidthGrows(text, r.start, c);
  }

  // ---------------------------------------------------------------------
  // A cursor at the end of the text, and the next character typed
  // ---------------------------------------------------------------------

  lemma SameWidths(text: Text, more: Text, a: nat, b: nat)
    requires a <= b <= |text| <= |more| && more[..|text|] == text
    ensures more[a..b] == text[a..b]
  {
    assert forall i :: a <= i < b ==> more[..|text|][i] == text[i];
  }

  lemma BreakStays(text: Text, more: Text, width: nat, r: Range)
    requires |text| <= |more| && more[..|text|] == text && GoodBreak(text, width, r)
    ensures FirstOver(more, width, r.start, r.end) == FirstOver(text, width, r.start, r.end)
    ensures GoodBreak(more, width, r)
  {
    hide Width, FirstOver, NoSpace;
    var o := FirstOver(text, width, r.start, r.end);
    OverStays(text, more, width, r.start, r.end);
    NoSpaceStays(text, more, r.end, o);
    NoSpaceStays(text, more, r.start, r.end);
    SameCharacter(text, more, r.end - 1);
  }

  lemma OverStays(text: Text, more: Text, width: nat, start: nat, i: nat)
    requires |text| <= |more| && more[..|text|] == text
    requires start <= i <= |text| && FirstOver(text, width, start, i) < |text|
    ensures FirstOver(more, width, start, i) == FirstOver(text, width, start, i)
  {
    hide Width, FirstOver;
    var o := FirstOver(text, width, start, i);
    WidthStays(text, more, start, o + 1);
    WidthStays(text, more, start, o);
    FirstOverIs(more, width, start, i, o);
  }

  lemma WidthStays(text: Text, more: Text, a: nat, b: nat)
    requires a <= b <= |text| <= |more| && more[..|text|] == text
    ensures Width(more[a..b]) == Width(text[a..b])
  {
    hide Width;
    SameWidths(text, more, a, b);
  }

  lemma SameCharacter(text: Text, more: Text, i: nat)
    requires i < |text| <= |more| && more[..|text|] == text
    ensures more[i] == text[i]
  {
    assert more[..|text|][i] == more[i];
  }

  lemma NoSpaceStays(text: Text, more: Text, a: nat, b: nat)
    requires a <= b <= |text| <= |more| && more[..|text|] == text
    ensures NoSpace(more, a, b) <==> NoSpace(text, a, b)
  {
    forall i: nat | i < |text|
      ensures more[i] == text[i]
    {
      SameCharacter(text, more, i);
    }
  }

  /** The lines but the last stand, whatever is typed after them. */
  lemma LinesStay(text: Text, more: Text, width: nat, ranges: seq<Range>)
    requires |text| <= |more| && more[..|text|] == text && IsWrapped(text, width, ranges) && text != []
    ensures var out := ranges[..|ranges| - 1];
            && InText(more, out) && Lines(more, width, out, ranges[|ranges| - 1].start)
            && Carried(more, width, out, |out|) == Carried(text, width, ranges, |ranges| - 1)
  {
    var n := |ranges| - 1;
    var out := ranges[..n];
    forall k: nat | k < n
      ensures LineStays(text, more, width, ranges, k)
    {
      OneLineStays(text, more, width, ranges, k);
    }
    TilesBefore(text, width, ranges);
    hide IsWrapped, LineStays, GoodBreaks, AllFilled, Tiles, Carried;
    forall k: nat | k <= n
      ensures Carried(more, width, out, k) == Carried(text, width, ranges, k)
    {
      CarriedStays(text, more, width, ranges, k);
    }
    FilledStay(text, more, width, ranges);
  }

  lemma TilesBefore(text: Text, width: nat, ranges: seq<Range>)
    requires IsWrapped(text, width, ranges) && text != []
    ensures Tiles(ranges[..|ranges| - 1], ranges[|ranges| - 1].start) && InText(text, ranges[..|ranges| - 1])
  {
    hide GoodBreaks, AllFilled;
  }

  lemma CarriedStays(text: Text, more: Text, width: nat, ranges: seq<Range>, k: nat)
    requires |text| <= |more| && InText(text, ranges) && k < |ranges|
    requires k > 0 ==> LineStays(text, more, width, ranges, k - 1)
    ensures var out := ranges[..|ranges| - 1];
            InText(more, out) && Carried(more, width, out, k) == Carried(text, width, ranges, k)
  {
    hide FirstOver, GoodBreak, Filled;
  }

  lemma FilledStay(text: Text, more: Text, width: nat, ranges: seq<Range>)
    requires |text| <= |more| && ranges != [] && InText(text, ranges) && InText(more, ranges[..|ranges| - 1])
    requires forall k: nat :: k < |ranges| - 1 ==> LineStays(text, more, width, ranges, k)
    requires forall k: nat :: k < |ranges| ==>
               Carried(more, width, ranges[..|ranges| - 1], k) == Carried(text, width, ranges, k)
    ensures AllFilled(more, width, ranges[..|ranges| - 1]) && GoodBreaks(more, width, ranges[..|ranges| - 1])
  {
    var out := ranges[..|ranges| - 1];
    hide FirstOver, GoodBreak, Filled, Carried;
    forall k: nat | k < |out|
      ensures Filled(more, width, out[k], Carried(more, width, out, k)) && GoodBreak(more, width, out[k])
    {
      assert LineStays(text, more, width, ranges, k);
    }
  }

  predicate LineStays(text: Text, more: Text, width: nat, ranges: seq<Range>, k: nat)
    requires |text| <= |more| && InText(text, ranges) && k < |ranges|
  {
    && FirstOver(more, width, ranges[k].start, ranges[k].end) == FirstOver(text, width, ranges[k].start, ranges[k].end)
    && GoodBreak(more, width, ranges[k])
    && Filled(more, width, ranges[k], Carried(text, width, ranges, k))
  }

  lemma OneLineStays(text: Text, more: Text, width: nat, ranges: seq<Range>, k: nat)
    requires |text| <= |more| && more[..|text|] == text && IsWrapped(text, width, ranges) && text != []
    requires k < |ranges| - 1
    ensures LineStays(text, more, width, ranges, k)
  {
    assert Filled(text, width, ranges[k], Carried(text, width, ranges, k));
    SameWidths(text, more, ranges[k].start, ranges[k].end);
    BreakStays(text, more, width, ranges[..|ranges| - 1][k]);
    hide GoodBreak, Carried, FirstOver, Width;
  }

  /** The last space of a line, if it has one. */
  lemma {:induction false} LastSpace(text: Text, start: nat, i: nat) returns (brk: Option<nat>)
    requires start <= i <= |text|
    ensures Spaced(text, start, i, brk)
  {
    if i == start {
      brk := None;
    } else if text[i - 1].code == ' ' {
      brk := Some(i);
    } else {
      brk := LastSpace(text, start, i - 1);
    }
  }

  /** Where the loop stands when there is one more character to come. */
  lemma Resume(text: Text, more: Text, width: nat, ranges: seq<Range>) returns (brk: Option<nat>)
    requires |text| <= |more| && more[..|text|] == text && IsWrapped(text, width, ranges) && text != []
    ensures var start := ranges[|ranges| - 1].start;
            && start < |text|
            && Standing(more, width, start, Carried(text, width, ranges, |ranges| - 1), |text|,
                        Width(text[start..|text|]), brk)
  {
    var n := |ranges| - 1;
    var start, from := ranges[n].start, Carried(text, width, ranges, n);
    LineBegins(text, width, ranges, n);
    EndsWell(text, width, ranges, n);
    SameWidths(text, more, start, |text|);
    brk := LastSpace(more, start, |text|);
    assert forall i :: 0 <= i < |text| ==> more[i] == more[..|text|][i];
    hide Width, Carried, IsWrapped;
  }

  /** The wrapping after one more one-cell character: the last line grows, or is cut and a new one begun. */
  lemma TypeOne(text: Text, width: nat, ranges: seq<Range>, next: Char) returns (after: seq<Range>)
    requires width >= 1 && IsWrapped(text, width, ranges) && next.cells == 1
    ensures IsWrapped(text + [next], width, after)
    ensures var start := ranges[|ranges| - 1].start;
            start <= |text| && |after| == |ranges| + if Width(text[start..|text|]) < width then 0 else 1
  {
    var more, i, n := text + [next], |text|, |ranges| - 1;
    assert more[..i] == text && more[i] == next;
    var start, out := ranges[n].start, ranges[..n];
    var brk: Option<nat> := None;
    if text == [] {
      Begin(more, width);
    } else {
      brk := Resume(text, more, width, ranges);
      LinesStay(text, more, width, ranges);
    }
    var from, used := Carried(more, width, out, |out|), Width(text[start..i]);
    assert text == [] ==> used == 0;
    hide *;
    after := GrowLines(more, width, out, start, from, i, used, brk);
  }

  lemma GrowLines(more: Text, width: nat, out: seq<Range>, start: nat, from: nat, i: nat, used: nat, brk: Option<nat>)
    returns (after: seq<Range>)
    requires width >= 1 && i + 1 == |more| && more[i].cells == 1 && (start == i ==> used < width)
    requires InText(more, out) && Lines(more, width, out, start) && from == Carried(more, width, out, |out|)
    requires start <= i && Standing(more, width, start, from, i, used, brk)
    ensures IsWrapped(more, width, after) && |after| == |out| + if used < width then 1 else 2
  {
    hide *;
    var brk2 := if more[i].code == ' ' then Some(i + 1) else if used < width then brk else None;
    if used < width {
      Keep(more, width, start, from, i, used, brk);
      Finish(more, width, out, start, used + 1, brk2);
      after := out + [Range(start, |more|)];
    } else {
      Carry(more, width, start, from, i, used, brk);
      var cut := if brk.Some? then brk.value else i;
      AddLine(more, width, out, start, cut);
      Finish(more, width, out + [Range(start, cut)], cut, Width(more[cut..i]) + 1, brk2);
      after := out + [Range(start, cut)] + [Range(cut, |more|)];
    }
  }

  /**
   * Whatever the widths, a cursor at the end of the text is outside exactly when
   * the next one-cell character typed starts a new line.
   */
  lemma EndOutsideIff(text: Text, width: nat, ranges: seq<Range>, next: Char, after: seq<Range>)
    requires width >= 1 && IsWrapped(text, width, ranges)
    requires next.cells == 1 && IsWrapped(text + [next], width, after)
    ensures var last := ranges[|ranges| - 1];
            && last.start <= last.end == |text|
            && |after| == |ranges| + if Inside(text, width, last, |text|) then 0 else 1
  {
    EndsWell(text, width, ranges, |ranges| - 1);
    var other := TypeOne(text, width, ranges, next);
    WrappingIsUnique(text + [next], width, other, after);
    hide IsWrapped, Width;
  }

  predicate OneCellWord(text: Text) {
    NoSpace(text, 0, |text|) && forall i :: 0 <= i < |text| ==> text[i].cells == 1
  }

  lemma {:induction false} OneCellWidth(text: Text, a: nat, b: nat)
    requires OneCellWord(text) && a <= b <= |text|
    ensures Width(text[a..b]) == b - a
  {
    if a < b {
      OneCellWidth(text, a, b - 1);
      WidthGrows(text, a, b - 1);
    }
  }

  /** A broken line of such a word is full. */
  lemma WordLine(text: Text, width: nat, r: Range)
    requires OneCellWord(text) && GoodBreak(text, width, r) && LineWidth(text, r) <= width
    ensures r.end == r.start + width
  {
    OneCellWidth(text, r.start, r.end);
    OneCellWidth(text, r.start, r.end + 1);
    assert text[r.end - 1].code != ' ';
  }

  /** A long word of one-cell characters is cut every `width` characters. */
  lemma {:induction false} WordIsCutEvenly(text: Text, width: nat, ranges: seq<Range>, k: nat)
    requires width >= 1 && IsWrapped(text, width, ranges) && OneCellWord(text) && text != [] && k < |ranges|
    ensures ranges[k].start == k * width
    ensures ranges[k].end <= |text| && ranges[k].start < ranges[k].end <= ranges[k].start + width
  {
    LineFits(text, width, ranges, k);
    assert AtMost(text, 1);
    assert ranges[k].start < ranges[k].end;
    OneCellWidth(text, ranges[k].start, ranges[k].end);
    if k > 0 {
      WordIsCutEvenly(text, width, ranges, k - 1);
      LineFits(text, width, ranges, k - 1);
      assert GoodBreak(text, width, ranges[..|ranges| - 1][k - 1]);
      assert ranges[k - 1].end == ranges[k].start;
      hide GoodBreak, OneCellWord, IsWrapped, LineWidth;
      WordLine(text, width, ranges[k - 1]);
      Multiplied(k, k, width);
    }
  }

  /** So the end-of-text cursor of such a word is outside exactly when the width divides its length. */
  lemma WordEndOutsideIff(text: Text, width: nat, ranges: seq<Range>)
    requires width >= 1 && IsWrapped(text, width, ranges) && OneCellWord(text) && text != []
    ensures var last := ranges[|ranges| - 1];
            && last.start <= |text| == last.end
            && (!Inside(text, width, last, |text|) <==> |text| % width == 0)
  {
    var n := |ranges| - 1;
    WordIsCutEvenly(text, width, ranges, n);
    var last := ranges[n];
    OneCellWidth(text, last.start, |text|);
    Remainder(|text|, width, n);
  }

  lemma Remainder(x: nat, w: nat, n: nat)
    requires w >= 1 && n * w < x <= n * w + w
    ensures x % w == 0 <==> x == n * w + w
  {
    if x == n * w + w {
      assert x == (n + 1) * w + 0;
      Divided(x, w, n + 1, 0);
    } else {
      Divided(x, w, n, x - n * w);
    }
  }

  lemma Divided(x: nat, w: nat, q: nat, l: nat)
    requires x == q * w + l && l < w
    ensures x % w == l
  {
    var q2, l2 := x / w, x % w;
    assert x == q2 * w + l2;
    if q2 < q {
      Multiplied(q2 + 1, q, w);
    } else if q < q2 {
      Multiplied(q + 1, q2, w);
    }
  }

  lemma Multiplied(a: nat, b: nat, w: nat)
    requires a <= b
    ensures a * w <= b * w
    ensures a >= 1 ==> a * w == (a - 1) * w + w
  {
  }

  /** Two letters in a field two cells wide: the cursor after them is drawn outside. */
  lemma FullLineLosesTheCursor()
    ensures var text: Text := [Glyph('a', 1), Glyph('b', 1)];
            IsWrapped(text, 2, [Range(0, 2)]) && Holder([Range(0, 2)], 2, 0) && !Inside(text, 2, Range(0, 2), 2)
  {
    var text: Text := [Glyph('a', 1), Glyph('b', 1)];
    OneCellWidth(text, 0, 2);
    hide Width;
    assert [Range(0, 2)][..0] == [];
  }

  /** A two-cell character in a field one cell wide: so is the cursor on it. */
  lemma WideCharacterLosesTheCursor(wide: Char)
    requires wide.cells == 2
    ensures IsWrapped([wide], 1, [Range(0, 1)]) && Holder([Range(0, 1)], 0, 0) && !Inside([wide], 1, Range(0, 1), 0)
  {
    assert [wide][0..0] == [] && Width([]) == 0;
    assert [Range(0, 1)][..0] == [];
    hide Width;
  }

  /** And on a wide character that is carried over. */
  lemma CarriedCharacterLosesTheCursor()
    ensures var text: Text := [BLANK, Glyph('b', 1), Glyph('b', 1), WIDE];
            var ranges := [Range(0, 1), Range(1, 4)];
            IsWrapped(text, 3, ranges) && Holder(ranges, 3, 1) && !Inside(text, 3, ranges[1], 3)
  {
    var text: Text := [BLANK, Glyph('b', 1), Glyph('b', 1), WIDE];
    WideCharacterIsCarriedOver();
    WidthGrows(text, 1, 3);
    hide IsWrapped, Width;
  }
}
