// Models src/app/render_backend.rs: the iterator that emits a wide cell's
// reserved column before the cell, and the terminal it is judged against.
module RenderBackend {
  import opened Options

  const VS16: char := '\U{FE0F}'

  /** A buffer cell's symbol with the width `unicode-width` measures for it. */
  datatype Symbol = Symbol(text: string, width: nat) {
    predicate Emoji() {
      VS16 in text
    }

    /** No grapheme measures past two cells, and one carrying VS16 measures two. */
    predicate Measured() {
      width <= 2 && (Emoji() ==> width == 2)
    }
  }

  const BLANK := Symbol(" ", 1)

  datatype Update = Update(x: nat, y: nat, symbol: Symbol)

  // ---------------------------------------------------------------------
  // The reordering
  // ---------------------------------------------------------------------

  /** b is the column a wide cell a reserves, on the same row. */
  predicate Reserves(a: Update, b: Update) {
    a.symbol.width > 1 && b.y == a.y && b.x == a.x + 1
  }

  /** What the iterator yields for a whole stream. */
  function Reorder(s: seq<Update>): seq<Update> {
    if |s| >= 2 && Reserves(s[0], s[1]) then [s[1], s[0]] + Reorder(s[2..])
    else if |s| >= 1 then [s[0]] + Reorder(s[1..])
    else []
  }

  /** Reading order of the diff: row by row, left to right, no cell twice. */
  predicate Before(a: Update, b: Update) {
    a.y < b.y || (a.y == b.y && a.x < b.x)
  }

  predicate Increasing(s: seq<Update>) {
    forall i, j :: 0 <= i < j < |s| ==> Before(s[i], s[j])
  }

  /** How one look ahead changes what remains. */
  lemma {:induction false} LookAhead(current: Update, rest: seq<Update>)
    ensures |rest| > 0 && Reserves(current, rest[0]) ==>
              Reorder([current] + rest) == [rest[0]] + ([current] + Reorder(rest[1..]))
    ensures !(|rest| > 0 && Reserves(current, rest[0])) ==>
              Reorder([current] + rest) == [current] + Reorder(rest)
  {
    if |rest| > 0 && Reserves(current, rest[0]) {
      assert [current] + rest == [current, rest[0]] + rest[1..];
      ReorderSwap(current, rest[0], rest[1..]);
    } else {
      ReorderCons(current, rest);
    }
  }

  class ReservedColumnFirst {
    var inner: seq<Update>
    var peeked: Option<Update>
    var deferred: Option<Update>

    constructor (content: seq<Update>)
      ensures Remaining() == Reorder(content)
    {
      inner := content;
      peeked := None;
      deferred := None;
      new;
      assert [] + content == content && [] + Reorder(content) == Reorder(content);
    }

    /** Everything still to be yielded. */
    ghost function Remaining(): seq<Update>
      reads this
    {
      Opt(deferred) + Reorder(Opt(peeked) + inner)
    }

    method Next() returns (r: Option<Update>)
      modifies this
      ensures r.None? <==> old(Remaining()) == []
      ensures r.None? ==> Remaining() == []
      ensures r.Some? ==> old(Remaining()) == [r.value] + Remaining()
    {
      hide Reorder;
      ReorderEmpty();
      if deferred.Some? {
        r := deferred;
        deferred := None;
        return;
      }
      var current := peeked;
      peeked := None;
      if current.None? {
        if |inner| == 0 {
          return None;
        }
        current := Some(inner[0]);
        inner := inner[1..];
      }
      ghost var rest := inner;
      LookAhead(current.value, rest);
      assert old(Opt(peeked) + inner) == [current.value] + rest;
      if current.value.symbol.width > 1 {
        var ahead: Option<Update> := None;
        if |inner| > 0 {
          ahead := Some(inner[0]);
          inner := inner[1..];
        }
        if ahead.Some? && ahead.value.y == current.value.y && ahead.value.x == current.value.x + 1 {
          deferred := current;
          assert Opt(peeked) + inner == rest[1..];
          return ahead;
        }
        peeked := ahead;
      }
      assert Opt(peeked) + inner == rest;
      return current;
    }
  }

  /** Draining the iterator yields exactly `Reorder`. */
  method Drain(content: seq<Update>) returns (out: seq<Update>)
    ensures out == Reorder(content)
  {
    hide Reorder;
    var it := new ReservedColumnFirst(content);
    out := [];
    var n := it.Next();
    while n.Some?
      invariant out + Opt(n) + it.Remaining() == Reorder(content)
      invariant n.None? ==> it.Remaining() == []
      decreases |it.Remaining()| + |Opt(n)|
    {
      out := out + [n.value];
      n := it.Next();
    }
  }

  lemma ReorderEmpty()
    ensures Reorder([]) == []
    ensures forall s :: s != [] ==> Reorder(s) != []
  {
  }

  lemma ReorderSwap(a: Update, b: Update, t: seq<Update>)
    requires Reserves(a, b)
    ensures Reorder([a, b] + t) == [b, a] + Reorder(t)
  {
    assert ([a, b] + t)[2..] == t;
  }

  lemma ReorderCons(a: Update, t: seq<Update>)
    requires |t| > 0 ==> !Reserves(a, t[0])
    ensures Reorder([a] + t) == [a] + Reorder(t)
  {
    assert ([a] + t)[1..] == t;
  }

  lemma SwapMultiset(a: Update, b: Update, r: seq<Update>, t: seq<Update>)
    requires multiset(r) == multiset(t)
    ensures multiset([b, a] + r) == multiset([a, b] + t)
    ensures multiset([a] + r) == multiset([a] + t)
  {
  }

  lemma {:induction false} ReorderIsPermutation(s: seq<Update>)
    ensures multiset(Reorder(s)) == multiset(s)
  {
    ReorderHeads(s);
    hide Reorder, Reserves;
    if |s| >= 2 && Reserves(s[0], s[1]) {
      var t := s[2..];
      ReorderIsPermutation(t);
      SwapMultiset(s[0], s[1], Reorder(t), t);
    } else if |s| >= 1 {
      var t := s[1..];
      ReorderIsPermutation(t);
      SwapMultiset(s[0], s[0], Reorder(t), t);
    }
  }

  /** The definition, with the stream split the same way. */
  lemma ReorderHeads(s: seq<Update>)
    ensures s == [] ==> Reorder(s) == []
    ensures |s| >= 2 && Reserves(s[0], s[1]) ==>
              s == [s[0], s[1]] + s[2..] && Reorder(s) == [s[1], s[0]] + Reorder(s[2..])
    ensures |s| >= 1 && !(|s| >= 2 && Reserves(s[0], s[1])) ==>
              s == [s[0]] + s[1..] && Reorder(s) == [s[0]] + Reorder(s[1..])
  {
    SplitHeads(s);
    ReorderUnfolds(s);
    hide Reorder, Reserves;
  }

  lemma SplitHeads(s: seq<Update>)
    ensures |s| >= 1 ==> s == [s[0]] + s[1..]
    ensures |s| >= 2 ==> s == [s[0], s[1]] + s[2..]
  {
  }

  lemma ReorderUnfolds(s: seq<Update>)
    ensures Reorder(s) ==
            if |s| >= 2 && Reserves(s[0], s[1]) then [s[1], s[0]] + Reorder(s[2..])
            else if |s| >= 1 then [s[0]] + Reorder(s[1..])
            else []
  {
  }

  /** The element a reordered stream starts with is one of the first two. */
  lemma ReorderHead(s: seq<Update>)
    requires |s| > 0
    ensures |Reorder(s)| > 0
    ensures Reorder(s)[0] == s[0] || (|s| > 1 && Reserves(s[0], s[1]) && Reorder(s)[0] == s[1])
  {
  }

  /** A second pass finds nothing left to move. */
  lemma {:induction false} ReorderIdempotent(s: seq<Update>)
    requires Increasing(s)
    ensures Reorder(Reorder(s)) == Reorder(s)
  {
    hide Reorder, Increasing;
    ReorderUnfolds(s);
    if |s| >= 2 && Reserves(s[0], s[1]) {
      IncreasingTail(s, 2);
      ReorderIdempotent(s[2..]);
      NothingReserves(s, 2);
      SwappedStays(s[0], s[1], Reorder(s[2..]));
    } else if |s| >= 1 {
      IncreasingTail(s, 1);
      ReorderIdempotent(s[1..]);
      NothingReserves(s, 1);
      ReorderCons(s[0], Reorder(s[1..]));
    } else {
      ReorderUnfolds([]);
    }
  }

  /** Two swapped cells in front of a stream that stays as it is stay as they are. */
  lemma SwappedStays(a: Update, b: Update, t: seq<Update>)
    requires Reserves(a, b) && Reorder(t) == t && (|t| > 0 ==> !Reserves(a, t[0]))
    ensures Reorder([b, a] + t) == [b, a] + t
  {
    ReorderCons(a, t);
    ReorderCons(b, [a] + t);
    hide Reorder;
    assert [b, a] + t == [b] + ([a] + t);
  }

  lemma IncreasingTail(s: seq<Update>, n: nat)
    requires Increasing(s) && n <= |s|
    ensures Increasing(s[n..])
  {
  }

  /** What the rest of a stream starts with, once reordered, is in no column s[0] reserves. */
  lemma NothingReserves(s: seq<Update>, n: nat)
    requires Increasing(s) && 1 <= n <= 2 && n <= |s|
    requires n == 1 ==> |s| < 2 || !Reserves(s[0], s[1])
    requires n == 2 ==> Reserves(s[0], s[1])
    ensures var t := Reorder(s[n..]); |t| > 0 ==> !Reserves(s[0], t[0])
  {
    if |s| > n {
      ReorderHead(s[n..]);
      assert Before(s[0], s[1]) && (|s| > 2 ==> Before(s[1], s[2])) && (|s| > 3 ==> Before(s[1], s[3]));
      hide Reorder;
    }
  }

  // ---------------------------------------------------------------------
  // The terminal
  // ---------------------------------------------------------------------

  /** A screen column: the left edge of a glyph, or covered by the one to its left. */
  datatype Column = Covered | Shown(symbol: Symbol)

  /** The columns a terminal paints a symbol on. */
  function Painted(s: Symbol, emojiCols: nat): nat {
    if s.Emoji() then emojiCols else if s.width < 1 then 1 else s.width
  }

  function Owner(cols: seq<Column>, i: nat): (o: nat)
    requires i < |cols|
    ensures o <= i
    ensures forall k :: o < k <= i ==> cols[k].Covered?
    ensures cols[o].Shown? || o == 0
  {
    if cols[i].Covered? && i > 0 then Owner(cols, i - 1) else i
  }

  function RunEnd(cols: seq<Column>, j: nat): (e: nat)
    requires j <= |cols|
    ensures j <= e <= |cols|
    ensures forall k :: j <= k < e ==> cols[k].Covered?
    ensures e < |cols| ==> cols[e].Shown?
    decreases |cols| - j
  {
    if j < |cols| && cols[j].Covered? then RunEnd(cols, j + 1) else j
  }

  /** Blank the whole glyph that occupies column i. */
  function ClearGlyph(cols: seq<Column>, i: nat): (r: seq<Column>)
    requires i < |cols|
    ensures |r| == |cols|
  {
    var o := Owner(cols, i);
    var e := RunEnd(cols, o + 1);
    cols[..o] + seq(e - o, k => Shown(BLANK)) + cols[e..]
  }

  lemma RunStep(cols: seq<Column>, j: nat)
    requires j <= |cols|
    ensures RunEnd(cols, j) == if j < |cols| && cols[j].Covered? then RunEnd(cols, j + 1) else j
  {
  }

  /** Blank from the owner to the end of its run, and otherwise as before. */
  lemma Blanked(was: seq<Column>, now: seq<Column>, i: nat)
    requires i < |was| == |now|
    requires var o := Owner(was, i);
             var e := RunEnd(was, o + 1);
             && (forall k :: o <= k < e ==> now[k] == Shown(BLANK))
             && (forall k :: 0 <= k < o || e <= k < |was| ==> now[k] == was[k])
    ensures now == ClearGlyph(was, i)
    ensures |now| > 0 && was[0].Shown? ==> now[0].Shown?
  {
    hide Owner, RunEnd;
  }

  /** Blank the glyphs under n columns from c. */
  function ClearSpan(cols: seq<Column>, c: nat, n: nat): (r: seq<Column>)
    ensures |r| == |cols|
  {
    if n == 0 then cols
    else
      var before := ClearSpan(cols, c, n - 1);
      if c + n - 1 < |cols| then ClearGlyph(before, c + n - 1) else before
  }

  /** Cover the n columns from c. */
  function Cover(cols: seq<Column>, c: nat, n: nat): (r: seq<Column>)
    ensures |r| == |cols|
  {
    if n == 0 then cols
    else
      var before := Cover(cols, c, n - 1);
      if c + n - 1 < |cols| then before[c + n - 1 := Covered] else before
  }

  function PaintAt(cols: seq<Column>, c: nat, s: Symbol, emojiCols: nat): (r: seq<Column>)
    ensures |r| == |cols|
  {
    if c >= |cols| then cols
    else
      var w := Painted(s, emojiCols);
      var shown := ClearSpan(cols, c, w)[c := Shown(s)];
      if w > 1 then Cover(shown, c + 1, w - 1) else shown
  }

  datatype View = View(cols: seq<Column>, cursor: nat, last: Option<(nat, nat)>)

  /** Where a write lands: `MoveTo` is elided for the cell right after the last. */
  function Landing(v: View, u: Update): nat {
    if v.last.Some? && u.x == v.last.value.0 + 1 && u.y == v.last.value.1 then v.cursor else u.x
  }

  function FeedOne(v: View, u: Update, emojiCols: nat): View {
    var c := Landing(v, u);
    View(PaintAt(v.cols, c, u.symbol, emojiCols),
         if c < |v.cols| then c + Painted(u.symbol, emojiCols) else c,
         Some((u.x, u.y)))
  }

  function FeedAll(v: View, s: seq<Update>, emojiCols: nat): View
    decreases |s|
  {
    if s == [] then v else FeedAll(FeedOne(v, s[0], emojiCols), s[1..], emojiCols)
  }

  function Blanks(n: nat): seq<Column> {
    seq(n, i => Shown(BLANK))
  }

  /** A full repaint from column x on, one head cell at a time. */
  function RepaintFrom(cols: seq<Column>, row: seq<Symbol>, x: nat, emojiCols: nat): seq<Column>
    decreases |row| - x
  {
    if x >= |row| then cols
    else RepaintFrom(PaintAt(cols, x, row[x], emojiCols), row, x + Cells(row[x]), emojiCols)
  }

  function Cells(s: Symbol): (n: nat)
    ensures n >= 1
  {
    if s.width < 1 then 1 else s.width
  }

  function Repaint(row: seq<Symbol>, emojiCols: nat): seq<Column> {
    RepaintFrom(Blanks(|row|), row, 0, emojiCols)
  }

  class Screen {
    const cols: array<Column>
    var cursor: nat
    var last: Option<(nat, nat)>
    const emojiCols: nat

    /** A covered column always has an owner to its left. */
    ghost predicate Valid()
      reads cols
    {
      cols.Length > 0 ==> cols[0].Shown?
    }

    ghost function Abs(): View
      reads this, cols
    {
      View(cols[..], cursor, last)
    }

    constructor (width: nat, emojiCols: nat)
      ensures Valid() && fresh(cols)
      ensures this.emojiCols == emojiCols
      ensures Abs() == View(Blanks(width), 0, None)
    {
      cols := new Column[width](i => Shown(BLANK));
      cursor := 0;
      last := None;
      this.emojiCols := emojiCols;
    }

    /** The glyph's left edge, which owns column i. */
    method FindOwner(i: nat) returns (owner: nat)
      requires Valid() && i < cols.Length
      ensures owner == Owner(cols[..], i) && cols[owner].Shown?
    {
      ghost var was := cols[..];
      owner := i;
      while cols[owner].Covered?
        invariant owner <= i && Owner(was, owner) == Owner(was, i)
        decreases owner
      {
        owner := owner - 1;
      }
    }

    method ClearGlyphAt(i: nat)
      requires Valid() && i < cols.Length
      modifies cols
      ensures Valid()
      ensures cols[..] == ClearGlyph(old(cols[..]), i)
    {
      hide Owner, RunEnd, ClearGlyph;
      ghost var was := cols[..];
      var owner := FindOwner(i);
      cols[owner] := Shown(BLANK);
      var j := owner + 1;
      while j < cols.Length && cols[j].Covered?
        invariant owner < j <= cols.Length
        invariant RunEnd(was, j) == RunEnd(was, owner + 1)
        invariant forall k :: owner <= k < j ==> cols[k] == Shown(BLANK)
        invariant forall k :: 0 <= k < owner || j <= k < cols.Length ==> cols[k] == was[k]
      {
        RunStep(was, j);
        cols[j] := Shown(BLANK);
        j := j + 1;
      }
      RunStep(was, j);
      Blanked(was, cols[..], i);
    }

    /** Takes out whatever glyphs lie under n columns from the cursor. */
    method ClearUnderCursor(n: nat)
      requires Valid()
      modifies cols
      ensures Valid()
      ensures cols[..] == ClearSpan(old(cols[..]), cursor, n)
    {
      hide ClearGlyph;
      for k := 0 to n
        invariant Valid()
        invariant cols[..] == ClearSpan(old(cols[..]), cursor, k)
      {
        if cursor + k < cols.Length {
          ClearGlyphAt(cursor + k);
        }
      }
    }

    /** Covers the n columns right of the cursor. */
    method CoverAfterCursor(n: nat)
      requires Valid()
      modifies cols
      ensures Valid()
      ensures cols[..] == Cover(old(cols[..]), cursor + 1, n)
    {
      for k := 0 to n
        invariant Valid()
        invariant cols[..] == Cover(old(cols[..]), cursor + 1, k)
      {
        if cursor + 1 + k < cols.Length {
          cols[cursor + 1 + k] := Covered;
        }
      }
    }

    method Paint(symbol: Symbol)
      requires Valid()
      modifies this`cursor, cols
      ensures Valid()
      ensures cols[..] == PaintAt(old(cols[..]), old(cursor), symbol, emojiCols)
      ensures cursor == if old(cursor) < cols.Length then old(cursor) + Painted(symbol, emojiCols) else old(cursor)
    {
      if cursor >= cols.Length {
        return;
      }
      var width := Painted(symbol, emojiCols);
      hide ClearSpan, Cover;
      ClearUnderCursor(width);
      cols[cursor] := Shown(symbol);
      if width > 1 {
        CoverAfterCursor(width - 1);
      }
      cursor := cursor + width;
    }

    method Feed(x: nat, y: nat, symbol: Symbol)
      requires Valid()
      modifies this, cols
      ensures Valid()
      ensures Abs() == FeedOne(old(Abs()), Update(x, y, symbol), emojiCols)
    {
      if !(last.Some? && x == last.value.0 + 1 && y == last.value.1) {
        cursor := x;
      }
      last := Some((x, y));
      Paint(symbol);
    }
  }

  lemma RepaintUnrolled(cols: seq<Column>, row: seq<Symbol>, x: nat, emojiCols: nat)
    ensures RepaintFrom(cols, row, x, emojiCols) ==
            if x >= |row| then cols
            else RepaintFrom(PaintAt(cols, x, row[x], emojiCols), row, x + Cells(row[x]), emojiCols)
  {
  }

  method RepaintScreen(row: seq<Symbol>, emojiCols: nat) returns (screen: Screen)
    ensures fresh(screen) && fresh(screen.cols) && screen.Valid()
    ensures screen.emojiCols == emojiCols
    ensures screen.cols[..] == Repaint(row, emojiCols)
  {
    hide PaintAt, RepaintFrom;
    screen := new Screen(|row|, emojiCols);
    var x := 0;
    while x < |row|
      invariant screen.Valid()
      invariant RepaintFrom(screen.cols[..], row, x, emojiCols) == Repaint(row, emojiCols)
      decreases |row| - x
    {
      RepaintUnrolled(screen.cols[..], row, x, emojiCols);
      screen.cursor := x;
      screen.Paint(row[x]);
      x := x + Cells(row[x]);
    }
    RepaintUnrolled(screen.cols[..], row, x, emojiCols);
  }

  /** `WideGlyphBackend::draw`: replay the reordered stream on the terminal. */
  method Draw(screen: Screen, updates: seq<Update>)
    requires screen.Valid()
    modifies screen, screen.cols
    ensures screen.Valid()
    ensures screen.Abs() == FeedAll(old(screen.Abs()), Reorder(updates), screen.emojiCols)
  {
    hide Reorder;
    var it := new ReservedColumnFirst(updates);
    var n := it.Next();
    while n.Some?
      invariant screen.Valid() && fresh(it)
      invariant n.None? ==> it.Remaining() == []
      invariant FeedAll(screen.Abs(), Opt(n) + it.Remaining(), screen.emojiCols)
                == FeedAll(old(screen.Abs()), Reorder(updates), screen.emojiCols)
      decreases |it.Remaining()| + |Opt(n)|
    {
      hide FeedOne;
      assert (Opt(n) + it.Remaining())[1..] == it.Remaining();
      screen.Feed(n.value.x, n.value.y, n.value.symbol);
      n := it.Next();
    }
  }

  // ---------------------------------------------------------------------
  // Every write lands on its own column
  // ---------------------------------------------------------------------

  /** No write of the stream is shifted by an elided `MoveTo`. */
  predicate Lands(v: View, s: seq<Update>, emojiCols: nat)
    decreases |s|
  {
    s == [] || (Landing(v, s[0]) == s[0].x && Lands(FeedOne(v, s[0], emojiCols), s[1..], emojiCols))
  }

  /** Each write painted at the column the buffer meant. */
  function PaintAll(cols: seq<Column>, s: seq<Update>, emojiCols: nat): seq<Column>
    decreases |s|
  {
    if s == [] then cols
    else PaintAll(PaintAt(cols, s[0].x, s[0].symbol, emojiCols), s[1..], emojiCols)
  }

  lemma {:induction false} LandingWritesPaintInPlace(v: View, s: seq<Update>, emojiCols: nat)
    requires Lands(v, s, emojiCols)
    ensures FeedAll(v, s, emojiCols).cols == PaintAll(v.cols, s, emojiCols)
    decreases |s|
  {
    if s != [] {
      LandingWritesPaintInPlace(FeedOne(v, s[0], emojiCols), s[1..], emojiCols);
    }
  }

  /** The right-hand neighbour follows a glyph only if it was painted on one column. */
  predicate NoDrift(s: seq<Update>, emojiCols: nat)
    decreases |s|
  {
    |s| > 1 ==> (Follows(s[0], s[1]) ==> Painted(s[0].symbol, emojiCols) == 1) && NoDrift(s[1..], emojiCols)
  }

  predicate Follows(a: Update, b: Update) {
    b.y == a.y && b.x == a.x + 1
  }

  predicate InRange(s: seq<Update>, width: nat) {
    forall i :: 0 <= i < |s| ==> s[i].x < width && s[i].symbol.Measured()
  }

  /** Exactly the streams without drift land; the reordering is what removes it. */
  lemma {:induction false} LandsIffNoDrift(v: View, s: seq<Update>, emojiCols: nat)
    requires InRange(s, |v.cols|)
    requires s != [] ==> Landing(v, s[0]) == s[0].x
    ensures Lands(v, s, emojiCols) <==> NoDrift(s, emojiCols)
    decreases |s|
  {
    hide PaintAt;
    if s != [] {
      var rest := s[1..];
      var after := FeedOne(v, s[0], emojiCols);
      if |rest| > 0 && Landing(after, rest[0]) != rest[0].x {
        assert !Lands(after, rest, emojiCols);
      } else {
        LandsIffNoDrift(after, rest, emojiCols);
      }
    }
  }

  lemma NoDriftCons(a: Update, t: seq<Update>, emojiCols: nat)
    requires NoDrift(t, emojiCols)
    requires |t| > 0 && Follows(a, t[0]) ==> Painted(a.symbol, emojiCols) == 1
    ensures NoDrift([a] + t, emojiCols)
  {
    assert ([a] + t)[1..] == t;
  }

  /** At either emoji width, for any strictly increasing stream. */
  lemma {:induction false} ReorderedStreamDoesNotDrift(s: seq<Update>, emojiCols: nat)
    requires Increasing(s)
    requires forall i :: 0 <= i < |s| ==> s[i].symbol.Measured()
    ensures NoDrift(Reorder(s), emojiCols)
  {
    if |s| >= 2 && Reserves(s[0], s[1]) {
      var t := Reorder(s[2..]);
      ReorderedStreamDoesNotDrift(s[2..], emojiCols);
      if |s| > 2 {
        ReorderHead(s[2..]);
        assert Before(s[1], s[2]) && Before(s[0], s[2]);
        assert |s| > 3 ==> Before(s[1], s[3]);
      }
      NoDriftCons(s[0], t, emojiCols);
      NoDriftCons(s[1], [s[0]] + t, emojiCols);
      assert [s[1], s[0]] + t == [s[1]] + ([s[0]] + t);
    } else if |s| >= 1 {
      var t := Reorder(s[1..]);
      ReorderedStreamDoesNotDrift(s[1..], emojiCols);
      if |s| > 1 {
        ReorderHead(s[1..]);
        assert Before(s[0], s[1]);
        assert |s| > 2 ==> Before(s[1], s[2]);
      }
      NoDriftCons(s[0], t, emojiCols);
    }
  }

  lemma ReorderKeepsRange(s: seq<Update>, width: nat)
    requires InRange(s, width)
    ensures InRange(Reorder(s), width)
  {
    ReorderIsPermutation(s);
    forall i | 0 <= i < |Reorder(s)|
      ensures Reorder(s)[i] in s
    {
      assert Reorder(s)[i] in multiset(Reorder(s));
    }
  }

  lemma ReorderedStreamLands(v: View, s: seq<Update>, emojiCols: nat)
    requires Increasing(s) && InRange(s, |v.cols|) && v.last.None?
    ensures Lands(v, Reorder(s), emojiCols)
  {
    ReorderedStreamDoesNotDrift(s, emojiCols);
    ReorderKeepsRange(s, |v.cols|);
    LandsIffNoDrift(v, Reorder(s), emojiCols);
  }

  // ---------------------------------------------------------------------
  // An incremental update ends where a full repaint does
  // ---------------------------------------------------------------------

  /** Column i belongs to the wide cell left of it. */
  predicate Reserved(row: seq<Symbol>, i: nat)
    requires i < |row|
  {
    i > 0 && row[i - 1].width == 2
  }

  /** A buffer row: measured symbols, and a blank in every reserved column. */
  predicate WellFormed(row: seq<Symbol>) {
    && (forall i :: 0 <= i < |row| ==> row[i].Measured())
    && (forall i {:trigger Reserved(row, i)} :: 0 <= i < |row| && Reserved(row, i) ==> row[i] == BLANK)
  }

  /** What a row should show in column i. */
  function PictureAt(row: seq<Symbol>, i: nat, emojiCols: nat): Column
    requires i < |row|
  {
    if !Reserved(row, i) then Shown(row[i])
    else if Painted(row[i - 1], emojiCols) == 2 then Covered
    else Shown(BLANK)
  }

  function Picture(row: seq<Symbol>, emojiCols: nat): seq<Column> {
    seq(|row|, i requires 0 <= i < |row| => PictureAt(row, i, emojiCols))
  }

  lemma NeverTwiceReserved(row: seq<Symbol>, i: nat)
    requires WellFormed(row) && i < |row| && Reserved(row, i)
    ensures row[i] == BLANK && (i + 1 < |row| ==> !Reserved(row, i + 1))
  {
  }

  /** The reserved columns near a head cell at p, in either row. */
  lemma NearHead(row: seq<Symbol>, p: nat)
    requires WellFormed(row) && p < |row|
    ensures p + 1 < |row| && row[p].width == 2 ==> row[p + 1] == BLANK
    ensures p + 2 < |row| && row[p].width == 2 ==> !Reserved(row, p + 2)
    ensures p + 2 < |row| && row[p + 1].width == 2 ==> row[p + 2] == BLANK
    ensures p + 3 < |row| && row[p + 1].width == 2 ==> !Reserved(row, p + 3)
  {
    if p + 1 < |row| && Reserved(row, p + 1) {
      NeverTwiceReserved(row, p + 1);
    }
    if p + 2 < |row| && Reserved(row, p + 2) {
      NeverTwiceReserved(row, p + 2);
    }
  }

  predicate Emits(s: seq<Update>, x: nat) {
    exists k :: 0 <= k < |s| && s[k].x == x
  }

  /** What ratatui's diff promises about row y, from column p on. */
  ghost predicate DiffFrom(p: nat, s: seq<Update>, prev: seq<Symbol>, next: seq<Symbol>, y: nat) {
    && |prev| == |next|
    && (forall k :: 0 <= k < |s| ==> p <= s[k].x < |next| && s[k].y == y && s[k].symbol == next[s[k].x])
    && (forall j, k :: 0 <= j < k < |s| ==> s[j].x < s[k].x)
    && (forall i :: p <= i < |next| && !Reserved(next, i) && next[i] != prev[i] ==> Emits(s, i))
    && (forall i {:trigger Reserved(next, i)} ::
          p <= i < |next| && Reserved(next, i) && Emits(s, i) ==> i > p && Emits(s, i - 1))
    && (forall i {:trigger Reserved(next, i)} ::
          p < i < |next| && Reserved(next, i) && next[i - 1].Emoji() && prev[i] != BLANK
          ==> Emits(s, i - 1) ==> Emits(s, i))
  }

  ghost predicate Diff(s: seq<Update>, prev: seq<Symbol>, next: seq<Symbol>, y: nat) {
    DiffFrom(0, s, prev, next, y)
  }

  /** Left of p the new picture, right of p the old one, and at p an unbroken left edge. */
  ghost predicate Halfway(cols: seq<Column>, p: nat, prev: seq<Symbol>, next: seq<Symbol>, emojiCols: nat) {
    && |cols| == |prev| == |next|
    && (forall i {:trigger PictureAt(next, i, emojiCols)} {:trigger cols[i]} ::
          0 <= i < p && i < |cols| ==> cols[i] == PictureAt(next, i, emojiCols))
    && (p < |cols| ==> cols[p] == Shown(prev[p]) && !Reserved(next, p))
    && (forall i {:trigger PictureAt(prev, i, emojiCols)} {:trigger cols[i]} ::
          p < i < |cols| ==> cols[i] == PictureAt(prev, i, emojiCols))
  }

  lemma ClearEdge(cols: seq<Column>, i: nat)
    requires i < |cols| && cols[i].Shown?
    requires i + 2 < |cols| && cols[i + 1].Covered? ==> cols[i + 2].Shown?
    ensures ClearGlyph(cols, i) ==
            if i + 1 < |cols| && cols[i + 1].Covered? then cols[i := Shown(BLANK)][i + 1 := Shown(BLANK)]
            else cols[i := Shown(BLANK)]
  {
    assert Owner(cols, i) == i;
  }

  lemma ClearCovered(cols: seq<Column>, i: nat)
    requires 0 < i < |cols| && cols[i].Covered? && cols[i - 1].Shown?
    requires i + 1 < |cols| ==> cols[i + 1].Shown?
    ensures ClearGlyph(cols, i) == cols[i - 1 := Shown(BLANK)][i := Shown(BLANK)]
  {
    assert Owner(cols, i) == i - 1;
    assert RunEnd(cols, i) == i + 1;
  }

  lemma PaintNarrow(cols: seq<Column>, c: nat, s: Symbol, emojiCols: nat)
    requires c < |cols| && Painted(s, emojiCols) == 1
    ensures PaintAt(cols, c, s, emojiCols) == ClearGlyph(cols, c)[c := Shown(s)]
  {
    assert ClearSpan(cols, c, 1) == ClearGlyph(ClearSpan(cols, c, 0), c);
  }

  lemma PaintWide(cols: seq<Column>, c: nat, s: Symbol, emojiCols: nat)
    requires c < |cols| && Painted(s, emojiCols) == 2
    ensures PaintAt(cols, c, s, emojiCols) ==
            if c + 1 < |cols| then ClearGlyph(ClearGlyph(cols, c), c + 1)[c := Shown(s)][c + 1 := Covered]
            else ClearGlyph(cols, c)[c := Shown(s)]
  {
    assert ClearSpan(cols, c, 1) == ClearGlyph(ClearSpan(cols, c, 0), c);
    var shown := ClearSpan(cols, c, 2)[c := Shown(s)];
    assert Cover(shown, c + 1, 1) ==
           if c + 1 < |cols| then Cover(shown, c + 1, 0)[c + 1 := Covered] else Cover(shown, c + 1, 0);
  }

  /** An unchanged glyph that the stream leaves alone. */
  lemma KeepGlyph(cols: seq<Column>, p: nat, prev: seq<Symbol>, next: seq<Symbol>, emojiCols: nat)
    requires WellFormed(prev) && WellFormed(next) && 1 <= emojiCols <= 2
    requires p < |next| && Halfway(cols, p, prev, next, emojiCols) && next[p] == prev[p]
    ensures Halfway(cols, p + Cells(next[p]), prev, next, emojiCols)
  {
    NearHead(prev, p);
    NearHead(next, p);
  }

  /** A glyph written over the old row. */
  lemma WriteGlyph(cols: seq<Column>, p: nat, prev: seq<Symbol>, next: seq<Symbol>, emojiCols: nat)
    requires WellFormed(prev) && WellFormed(next) && 1 <= emojiCols <= 2
    requires p < |next| && Halfway(cols, p, prev, next, emojiCols)
    requires p + 1 < |next| && next[p].Emoji() ==> prev[p + 1] == BLANK
    ensures Halfway(PaintAt(cols, p, next[p], emojiCols), p + Cells(next[p]), prev, next, emojiCols)
  {
    hide PaintAt, ClearGlyph;
    NearHead(prev, p);
    NearHead(next, p);
    ClearEdge(cols, p);
    var once := ClearGlyph(cols, p);
    if Painted(next[p], emojiCols) == 1 {
      PaintNarrow(cols, p, next[p], emojiCols);
    } else {
      PaintWide(cols, p, next[p], emojiCols);
      if p + 1 < |cols| {
        ClearEdge(once, p + 1);
      }
    }
  }

  /** The reserved column first: afterwards the row is as if it had been blank there. */
  lemma WriteReserved(cols: seq<Column>, p: nat, prev: seq<Symbol>, next: seq<Symbol>, emojiCols: nat)
    returns (seen: seq<Symbol>)
    requires WellFormed(prev) && WellFormed(next) && 1 <= emojiCols <= 2
    requires p + 1 < |next| && next[p].width == 2 && Halfway(cols, p, prev, next, emojiCols)
    ensures WellFormed(seen) && |seen| == |prev| && seen[p + 1] == BLANK && seen[p + 2..] == prev[p + 2..]
    ensures Halfway(PaintAt(cols, p + 1, BLANK, emojiCols), p, seen, next, emojiCols)
  {
    if cols[p + 1].Covered? {
      seen := prev[p := BLANK][p + 1 := BLANK];
      BlankCovered(cols, p, prev, seen, next, emojiCols);
    } else {
      seen := prev[p + 1 := BLANK];
      BlankShown(cols, p, prev, seen, next, emojiCols);
    }
    StillWellFormed(prev, seen, p);
  }

  /** The old glyph at p covered the reserved column, so both halves go. */
  lemma BlankCovered(cols: seq<Column>, p: nat, prev: seq<Symbol>, seen: seq<Symbol>, next: seq<Symbol>, emojiCols: nat)
    requires WellFormed(prev)
    requires p + 1 < |next| && next[p].width == 2 && Halfway(cols, p, prev, next, emojiCols)
    requires cols[p + 1].Covered? && seen == prev[p := BLANK][p + 1 := BLANK]
    ensures Halfway(PaintAt(cols, p + 1, BLANK, emojiCols), p, seen, next, emojiCols)
  {
    hide PaintAt, ClearGlyph;
    NearHead(prev, p);
    PaintNarrow(cols, p + 1, BLANK, emojiCols);
    ClearCovered(cols, p + 1);
  }

  /** The reserved column showed a glyph of its own. */
  lemma BlankShown(cols: seq<Column>, p: nat, prev: seq<Symbol>, seen: seq<Symbol>, next: seq<Symbol>, emojiCols: nat)
    requires WellFormed(prev)
    requires p + 1 < |next| && next[p].width == 2 && Halfway(cols, p, prev, next, emojiCols)
    requires cols[p + 1].Shown? && seen == prev[p + 1 := BLANK]
    ensures Halfway(PaintAt(cols, p + 1, BLANK, emojiCols), p, seen, next, emojiCols)
  {
    hide PaintAt, ClearGlyph;
    NearHead(prev, p);
    PaintNarrow(cols, p + 1, BLANK, emojiCols);
    ClearEdge(cols, p + 1);
  }

  lemma StillWellFormed(prev: seq<Symbol>, seen: seq<Symbol>, p: nat)
    requires WellFormed(prev) && p + 1 < |prev|
    requires seen == prev[p + 1 := BLANK] || seen == prev[p := BLANK][p + 1 := BLANK]
    ensures WellFormed(seen)
  {
    forall i | 0 <= i < |seen| && Reserved(seen, i)
      ensures seen[i] == BLANK
    {
      assert i != p + 2 ==> i == p + 1 || Reserved(prev, i);
    }
  }

  lemma EmitsTail(s: seq<Update>, n: nat, x: nat)
    requires n <= |s| && forall k :: 0 <= k < n ==> s[k].x != x
    ensures Emits(s[n..], x) <==> Emits(s, x)
  {
    if Emits(s, x) {
      var k :| 0 <= k < |s| && s[k].x == x;
      assert s[n..][k - n] == s[k];
    }
  }

  lemma DropWritten(p: nat, q: nat, n: nat, s: seq<Update>, prev: seq<Symbol>, seen: seq<Symbol>, next: seq<Symbol>, y: nat)
    requires DiffFrom(p, s, prev, next, y) && p < q && n <= |s|
    requires q < |next| ==> !Reserved(next, q)
    requires |seen| == |prev| && forall i :: q <= i < |prev| ==> seen[i] == prev[i]
    requires forall k :: 0 <= k < n ==> s[k].x < q
    requires n < |s| ==> s[n].x >= q
    ensures DiffFrom(q, s[n..], seen, next, y)
  {
    var t := s[n..];
    forall x: nat | q <= x
      ensures Emits(t, x) <==> Emits(s, x)
    {
      EmitsTail(s, n, x);
    }
  }

  /** The stream skips the glyph at p. */
  lemma ReplayUnchanged(cols: seq<Column>, p: nat, s: seq<Update>, prev: seq<Symbol>, next: seq<Symbol>,
                        y: nat, emojiCols: nat)
    requires WellFormed(prev) && WellFormed(next) && 1 <= emojiCols <= 2
    requires p < |next| && Halfway(cols, p, prev, next, emojiCols) && DiffFrom(p, s, prev, next, y)
    requires s == [] || s[0].x != p
    ensures Halfway(cols, p + Cells(next[p]), prev, next, emojiCols)
    ensures DiffFrom(p + Cells(next[p]), s, prev, next, y)
  {
    var q := p + Cells(next[p]);
    NextHead(cols, p, prev, next, emojiCols);
    assert !Emits(s, p);
    KeepGlyph(cols, p, prev, next, emojiCols);
    assert s != [] && s[0].x < q ==> Emits(s, s[0].x) && Reserved(next, s[0].x);
    DropWritten(p, q, 0, s, prev, prev, next, y);
    assert s[0..] == s;
  }

  /** The stream writes the glyph at p and the column it reserves. */
  lemma ReplaySwapped(cols: seq<Column>, p: nat, s: seq<Update>, prev: seq<Symbol>, next: seq<Symbol>,
                      y: nat, emojiCols: nat)
    returns (seen: seq<Symbol>)
    requires WellFormed(prev) && WellFormed(next) && 1 <= emojiCols <= 2
    requires p < |next| && Halfway(cols, p, prev, next, emojiCols) && DiffFrom(p, s, prev, next, y)
    requires |s| > 1 && s[0].x == p && Reserves(s[0], s[1])
    ensures WellFormed(seen) && s[1].x == p + 1 && s[1].symbol == BLANK && s[0].symbol == next[p]
    ensures Halfway(PaintAt(PaintAt(cols, p + 1, BLANK, emojiCols), p, next[p], emojiCols), p + Cells(next[p]),
                    seen, next, emojiCols)
    ensures DiffFrom(p + Cells(next[p]), s[2..], seen, next, y)
  {
    hide PaintAt;
    NextHead(cols, p, prev, next, emojiCols);
    assert Reserved(next, p + 1);
    seen := WriteReserved(cols, p, prev, next, emojiCols);
    WriteGlyph(PaintAt(cols, p + 1, BLANK, emojiCols), p, seen, next, emojiCols);
    DropWritten(p, p + Cells(next[p]), 2, s, prev, seen, next, y);
  }

  /** The stream writes the glyph at p alone. */
  lemma ReplayAlone(cols: seq<Column>, p: nat, s: seq<Update>, prev: seq<Symbol>, next: seq<Symbol>,
                    y: nat, emojiCols: nat)
    requires WellFormed(prev) && WellFormed(next) && 1 <= emojiCols <= 2
    requires p < |next| && Halfway(cols, p, prev, next, emojiCols) && DiffFrom(p, s, prev, next, y)
    requires |s| > 0 && s[0].x == p && !(|s| > 1 && Reserves(s[0], s[1]))
    ensures s[0].symbol == next[p]
    ensures Halfway(PaintAt(cols, p, next[p], emojiCols), p + Cells(next[p]), prev, next, emojiCols)
    ensures DiffFrom(p + Cells(next[p]), s[1..], prev, next, y)
  {
    hide PaintAt;
    NextHead(cols, p, prev, next, emojiCols);
    assert p + 1 < |next| && next[p].Emoji() ==> Reserved(next, p + 1);
    assert Emits(s, p);
    assert p + 1 < |next| && next[p].width == 2 ==> !Emits(s, p + 1);
    WriteGlyph(cols, p, prev, next, emojiCols);
    DropWritten(p, p + Cells(next[p]), 1, s, prev, prev, next, y);
  }

  /** One glyph of the new row at a time. */
  lemma {:induction false} Replay(cols: seq<Column>, p: nat, s: seq<Update>, prev: seq<Symbol>, next: seq<Symbol>,
                                  y: nat, emojiCols: nat)
    requires WellFormed(prev) && WellFormed(next) && 1 <= emojiCols <= 2
    requires Halfway(cols, p, prev, next, emojiCols) && DiffFrom(p, s, prev, next, y)
    ensures PaintAll(cols, Reorder(s), emojiCols) == Picture(next, emojiCols)
    decreases |next| - p
  {
    hide *;
    if p >= |next| {
      Finished(cols, p, s, prev, next, y, emojiCols);
    } else {
      ReorderHeads(s);
      var q := p + Cells(next[p]);
      CellsPositive(next[p]);
      if s == [] || s[0].x != p {
        ReplayUnchanged(cols, p, s, prev, next, y, emojiCols);
        Replay(cols, q, s, prev, next, y, emojiCols);
      } else if |s| > 1 && Reserves(s[0], s[1]) {
        var seen := ReplaySwapped(cols, p, s, prev, next, y, emojiCols);
        var twice := PaintAt(PaintAt(cols, p + 1, BLANK, emojiCols), p, next[p], emojiCols);
        Replay(twice, q, s[2..], seen, next, y, emojiCols);
        PaintTwo(cols, s[1], s[0], Reorder(s[2..]), emojiCols);
      } else {
        ReplayAlone(cols, p, s, prev, next, y, emojiCols);
        Replay(PaintAt(cols, p, next[p], emojiCols), q, s[1..], prev, next, y, emojiCols);
        PaintFirst(cols, s[0], Reorder(s[1..]), emojiCols);
      }
    }
  }

  lemma CellsPositive(s: Symbol)
    ensures Cells(s) >= 1
  {
  }

  lemma DiffStart(p: nat, s: seq<Update>, prev: seq<Symbol>, next: seq<Symbol>, y: nat)
    requires DiffFrom(p, s, prev, next, y)
    ensures s != [] ==> p < |next|
  {
    assert s != [] ==> p <= s[0].x < |next|;
  }

  lemma Finished(cols: seq<Column>, p: nat, s: seq<Update>, prev: seq<Symbol>, next: seq<Symbol>,
                 y: nat, emojiCols: nat)
    requires Halfway(cols, p, prev, next, emojiCols) && DiffFrom(p, s, prev, next, y) && p >= |next|
    ensures PaintAll(cols, Reorder(s), emojiCols) == Picture(next, emojiCols)
  {
    DiffStart(p, s, prev, next, y);
    assert cols == Picture(next, emojiCols);
  }

  lemma NextHead(cols: seq<Column>, p: nat, prev: seq<Symbol>, next: seq<Symbol>, emojiCols: nat)
    requires WellFormed(next) && p < |next| && Halfway(cols, p, prev, next, emojiCols)
    ensures !Reserved(next, p)
    ensures p + Cells(next[p]) < |next| ==> !Reserved(next, p + Cells(next[p]))
  {
    NearHead(next, p);
  }

  lemma PaintFirst(cols: seq<Column>, a: Update, t: seq<Update>, emojiCols: nat)
    ensures PaintAll(cols, [a] + t, emojiCols) == PaintAll(PaintAt(cols, a.x, a.symbol, emojiCols), t, emojiCols)
  {
    assert ([a] + t)[1..] == t;
  }

  lemma PaintTwo(cols: seq<Column>, a: Update, b: Update, t: seq<Update>, emojiCols: nat)
    ensures PaintAll(cols, [a, b] + t, emojiCols) ==
            PaintAll(PaintAt(PaintAt(cols, a.x, a.symbol, emojiCols), b.x, b.symbol, emojiCols), t, emojiCols)
  {
    assert [a, b] + t == [a] + ([b] + t);
    PaintFirst(cols, a, [b] + t, emojiCols);
    PaintFirst(PaintAt(cols, a.x, a.symbol, emojiCols), b, t, emojiCols);
  }

  /** The reference: a full repaint makes the row's picture. */
  lemma {:induction false} RepaintMakesPicture(row: seq<Symbol>, emojiCols: nat)
    requires WellFormed(row) && 1 <= emojiCols <= 2
    ensures Repaint(row, emojiCols) == Picture(row, emojiCols)
  {
    RepaintRest(Blanks(|row|), row, 0, emojiCols);
  }

  lemma {:induction false} RepaintRest(cols: seq<Column>, row: seq<Symbol>, x: nat, emojiCols: nat)
    requires WellFormed(row) && 1 <= emojiCols <= 2
    requires Halfway(cols, x, seq(|row|, i => BLANK), row, emojiCols)
    ensures RepaintFrom(cols, row, x, emojiCols) == Picture(row, emojiCols)
    decreases |row| - x
  {
    hide PaintAt;
    if x < |row| {
      WriteGlyph(cols, x, seq(|row|, i => BLANK), row, emojiCols);
      RepaintRest(PaintAt(cols, x, row[x], emojiCols), row, x + Cells(row[x]), emojiCols);
    }
  }

  /** The theorem: at either emoji width, an incremental update lands where a repaint would. */
  lemma UpdateEqualsRepaint(v: View, s: seq<Update>, prev: seq<Symbol>, next: seq<Symbol>, y: nat, emojiCols: nat)
    requires WellFormed(prev) && WellFormed(next) && 1 <= emojiCols <= 2
    requires Diff(s, prev, next, y)
    requires v.cols == Repaint(prev, emojiCols) && v.last.None?
    ensures FeedAll(v, Reorder(s), emojiCols).cols == Repaint(next, emojiCols)
  {
    hide PaintAt, RepaintFrom;
    RepaintMakesPicture(prev, emojiCols);
    RepaintMakesPicture(next, emojiCols);
    ReorderedStreamLands(v, s, emojiCols);
    LandingWritesPaintInPlace(v, Reorder(s), emojiCols);
    Replay(v.cols, 0, s, prev, next, y, emojiCols);
  }

  method Refresh(screen: Screen, updates: seq<Update>, prev: seq<Symbol>, next: seq<Symbol>, y: nat)
    requires screen.Valid() && 1 <= screen.emojiCols <= 2
    requires WellFormed(prev) && WellFormed(next) && Diff(updates, prev, next, y)
    requires screen.cols[..] == Repaint(prev, screen.emojiCols) && screen.last.None?
    modifies screen, screen.cols
    ensures screen.Valid()
    ensures screen.cols[..] == Repaint(next, screen.emojiCols)
  {
    UpdateEqualsRepaint(screen.Abs(), updates, prev, next, y, screen.emojiCols);
    Draw(screen, updates);
  }

  // ---------------------------------------------------------------------
  // Why the reserved column goes first
  // ---------------------------------------------------------------------

  const CLOUD := Symbol("\U{2601}\U{FE0F}", 2)

  function Letter(c: char): Symbol {
    Symbol([c], 1)
  }

  lemma FeedTwo(v: View, a: Update, b: Update, emojiCols: nat)
    ensures FeedAll(v, [a], emojiCols) == FeedOne(v, a, emojiCols)
    ensures FeedAll(v, [a, b], emojiCols) == FeedOne(FeedOne(v, a, emojiCols), b, emojiCols)
  {
    hide FeedOne;
    assert [a][1..] == [] && [b][1..] == [] && [a, b][1..] == [b];
    var w := FeedOne(v, a, emojiCols);
    assert FeedAll(w, [b], emojiCols) == FeedAll(FeedOne(w, b, emojiCols), [], emojiCols);
  }

  lemma CloudDiffMeetsContract()
    ensures WellFormed([Letter('1'), Letter('2'), Letter('x')]) && WellFormed([CLOUD, BLANK, Letter('x')])
    ensures Diff([Update(0, 0, CLOUD), Update(1, 0, BLANK)],
                 [Letter('1'), Letter('2'), Letter('x')], [CLOUD, BLANK, Letter('x')], 0)
  {
    var s := [Update(0, 0, CLOUD), Update(1, 0, BLANK)];
    assert CLOUD.text[1] == VS16 && BLANK.text == [' '];
    assert s[0].x == 0 && s[1].x == 1;
  }

  /** In the diff's own order a two-column terminal loses the character beside the glyph. */
  lemma DiffOrderDrifts()
    ensures var prev := [Letter('1'), Letter('2'), Letter('x')];
            var next := [CLOUD, BLANK, Letter('x')];
            var s := [Update(0, 0, CLOUD), Update(1, 0, BLANK)];
            && WellFormed(prev) && WellFormed(next) && Diff(s, prev, next, 0)
            && FeedAll(View(Picture(prev, 2), 0, None), s, 2).cols == [Shown(CLOUD), Covered, Shown(BLANK)]
            && Picture(next, 2) == [Shown(CLOUD), Covered, Shown(Letter('x'))]
  {
    CloudDiffMeetsContract();
    hide Diff, WellFormed, PaintAt, ClearGlyph;
    assert CLOUD.text[1] == VS16 && BLANK.text == [' '];
    var v := View([Shown(Letter('1')), Shown(Letter('2')), Shown(Letter('x'))], 0, None);
    assert v.cols == Picture([Letter('1'), Letter('2'), Letter('x')], 2);
    FeedTwo(v, Update(0, 0, CLOUD), Update(1, 0, BLANK), 2);
    PaintWide(v.cols, 0, CLOUD, 2);
    ClearEdge(v.cols, 0);
    ClearEdge(v.cols[0 := Shown(BLANK)], 1);
    var cols := [Shown(CLOUD), Covered, Shown(Letter('x'))];
    assert PaintAt(v.cols, 0, CLOUD, 2) == cols;
    assert FeedOne(v, Update(0, 0, CLOUD), 2) == View(cols, 2, Some((0, 0)));
    PaintNarrow(cols, 2, BLANK, 2);
    ClearEdge(cols, 2);
    assert PaintAt(cols, 2, BLANK, 2) == [Shown(CLOUD), Covered, Shown(BLANK)];
  }

  /** With the reserved column dropped, a one-column terminal keeps what was there. */
  lemma DroppingReservedLeavesDebris()
    ensures var prev := [Letter('1'), Letter('2')];
            var next := [CLOUD, BLANK];
            && FeedAll(View(Picture(prev, 1), 0, None), [Update(0, 0, CLOUD)], 1).cols
               == [Shown(CLOUD), Shown(Letter('2'))]
            && Picture(next, 1) == [Shown(CLOUD), Shown(BLANK)]
  {
    hide PaintAt, ClearGlyph;
    assert CLOUD.text[1] == VS16 && BLANK.text == [' '];
    var v := View([Shown(Letter('1')), Shown(Letter('2'))], 0, None);
    assert v.cols == Picture([Letter('1'), Letter('2')], 1);
    FeedTwo(v, Update(0, 0, CLOUD), Update(0, 0, CLOUD), 1);
    PaintNarrow(v.cols, 0, CLOUD, 1);
    ClearEdge(v.cols, 0);
  }
}
