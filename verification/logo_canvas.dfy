// Models `canvas` of src/app/agent_logos.rs: trim the artwork's transparent
// margins and fit it to two columns and one row.
module LogoCanvas {
  import opened Common

  const SIZE: nat := 32
  const COLUMNS: nat := 2
  const CAP: nat := 1024
  const U32: nat := 0x1_0000_0000

  type Byte = b: int | 0 <= b < 256

  /** Sizes are reported as 16-bit numbers. */
  predicate U16Cell(cell: CellSize) {
    cell.w < 0x1_0000 && cell.h < 0x1_0000
  }

  function Min(a: nat, b: nat): nat {
    if a < b then a else b
  }

  function Max(a: nat, b: nat): nat {
    if a < b then b else a
  }

  function DivCeil(a: nat, b: nat): (q: nat)
    requires b > 0
    ensures a <= q * b < a + b
  {
    (a + b - 1) / b
  }

  function CellW(cell: CellSize): nat {
    Max(cell.w, 1) * COLUMNS
  }

  function CellH(cell: CellSize): nat {
    Max(cell.h, 1)
  }

  function MinHeight(artH: nat): nat {
    Max(DivCeil(artH * 100, 85), artH + 2)
  }

  /** The canvas size for artwork of this size. */
  function Fit(artW: nat, artH: nat, cell: CellSize): (nat, nat) {
    var cw, ch, minH := CellW(cell), CellH(cell), MinHeight(artH);
    if artW * ch >= minH * cw then (artW, Min(DivCeil(artW * ch, cw), CAP))
    else (Min(DivCeil(minH * cw, ch), CAP), minH)
  }

  lemma MulMonotone(a: nat, b: nat, c: nat)
    requires a <= b
    ensures a * c <= b * c
  {
  }

  lemma QuotientAtLeast(q: nat, b: nat, a: nat, m: nat)
    requires a <= q * b && m * b <= a && b > 0
    ensures m <= q
  {
    if q < m {
      MulMonotone(q + 1, m, b);
    }
  }

  lemma MinHeightBounds(artH: nat)
    requires 1 <= artH <= SIZE
    ensures artH + 2 <= MinHeight(artH) <= 38 && artH * 100 <= MinHeight(artH) * 85
  {
  }

  /** Whatever the cell, the art fits, padded above and below and at most 85% of the height. */
  lemma FitHoldsTheArt(artW: nat, artH: nat, cell: CellSize)
    requires 1 <= artW <= SIZE && 1 <= artH <= SIZE
    ensures var (w, h) := Fit(artW, artH, cell);
            && artW <= w <= CAP && artH + 2 <= h <= CAP
            && artH * 100 <= h * 85
            && (h - artH) / 2 >= 1 && h - artH - (h - artH) / 2 >= 1
  {
    var cw, ch, minH := CellW(cell), CellH(cell), MinHeight(artH);
    MinHeightBounds(artH);
    if artW * ch >= minH * cw {
      QuotientAtLeast(DivCeil(artW * ch, cw), cw, artW * ch, minH);
    } else {
      QuotientAtLeast(DivCeil(minH * cw, ch), ch, minH * cw, artW);
    }
  }

  /** Below the cap the canvas has the cell's proportions to within a pixel. */
  lemma FitKeepsProportions(artW: nat, artH: nat, cell: CellSize)
    requires 1 <= artW <= SIZE && 1 <= artH <= SIZE
    ensures var (w, h) := Fit(artW, artH, cell); var cw, ch := CellW(cell), CellH(cell);
            && (artW * ch >= MinHeight(artH) * cw && h < CAP ==> w * ch <= h * cw < w * ch + cw)
            && (artW * ch < MinHeight(artH) * cw && w < CAP ==> h * cw <= w * ch < h * cw + ch)
  {
  }

  /** The least height that leaves a blank row above and below and keeps the art to 85% of it. */
  ghost predicate LeastHeight(artH: nat, h: nat) {
    && artH + 2 <= h && artH * 100 <= h * 85
    && forall k: nat :: artH + 2 <= k && artH * 100 <= k * 85 ==> h <= k
  }

  /** A quotient rounded up, but no more than the cap. */
  predicate RoundedUp(q: nat, a: nat, b: nat) {
    if q < CAP then a <= q * b < a + b else q == CAP && CAP * b < a + b
  }

  /** The canvas is as narrow as the art or of the least height, and the other side follows from the cell. */
  lemma FitIsTight(artW: nat, artH: nat, cell: CellSize, minH: nat)
    requires 1 <= artW <= SIZE && 1 <= artH <= SIZE && LeastHeight(artH, minH)
    ensures var (w, h) := Fit(artW, artH, cell);
            var cw, ch := if cell.w == 0 then 2 else 2 * cell.w, if cell.h == 0 then 1 else cell.h;
            if artW * ch >= minH * cw then w == artW && RoundedUp(h, artW * ch, cw)
            else h == minH && RoundedUp(w, minH * cw, ch)
  {
    LeastHeightIs(artH, minH);
    var cw, ch := CellW(cell), CellH(cell);
    if artW * ch >= minH * cw {
      RoundsUp(artW * ch, cw);
    } else {
      RoundsUp(minH * cw, ch);
    }
    hide DivCeil, MinHeight;
  }

  lemma LeastHeightIs(artH: nat, minH: nat)
    requires LeastHeight(artH, minH)
    ensures minH == MinHeight(artH)
  {
    assert artH * 100 <= MinHeight(artH) * 85;
  }

  lemma RoundsUp(a: nat, b: nat)
    requires b > 0
    ensures RoundedUp(Min(DivCeil(a, b), CAP), a, b)
  {
    var q := DivCeil(a, b);
    if q > CAP {
      MulMonotone(CAP + 1, q, b);
    }
  }

  /** None of the 32-bit products overflows, for any 16-bit cell. */
  lemma FitStaysInU32(artW: nat, artH: nat, cell: CellSize)
    requires 1 <= artW <= SIZE && 1 <= artH <= SIZE && U16Cell(cell)
    ensures var (w, h) := Fit(artW, artH, cell); var cw, ch := CellW(cell), CellH(cell);
            artH * 100 < U32 && artW * ch < U32 && MinHeight(artH) * cw < U32 && w * h * 4 < U32
  {
    var (w, h) := Fit(artW, artH, cell);
    FitHoldsTheArt(artW, artH, cell);
    MinHeightBounds(artH);
    MulMonotone(artW, SIZE, CellH(cell));
    MulMonotone(MinHeight(artH), 38, CellW(cell));
    MulMonotone(w, CAP, h);
    MulMonotone(h, CAP, CAP);
  }

  // ---------------------------------------------------------------------
  // The artwork's bounding box
  // ---------------------------------------------------------------------

  predicate IsSource(source: seq<Byte>) {
    |source| == SIZE * SIZE * 4
  }

  predicate Visible(source: seq<Byte>, x: nat, y: nat)
    requires IsSource(source) && x < SIZE && y < SIZE
  {
    source[(y * SIZE + x) * 4 + 3] > 0
  }

  datatype Box = Box(left: nat, top: nat, right: nat, bottom: nat) {
    predicate Holds(x: nat, y: nat) {
      left <= x < right && top <= y < bottom
    }
  }

  predicate ColumnShows(source: seq<Byte>, x: nat)
    requires IsSource(source) && x < SIZE
  {
    exists y :: 0 <= y < SIZE && Visible(source, x, y)
  }

  predicate RowShows(source: seq<Byte>, y: nat)
    requires IsSource(source) && y < SIZE
  {
    exists x :: 0 <= x < SIZE && Visible(source, x, y)
  }

  /** Reading order: the pixels before (x, y). */
  predicate Earlier(i: nat, j: nat, x: nat, y: nat) {
    j < y || (j == y && i < x)
  }

  /** The box of the visible pixels before (x, y) in reading order, tight on every side. */
  ghost predicate Bounds(source: seq<Byte>, b: Box, x: nat, y: nat)
    requires IsSource(source) && x <= SIZE && y <= SIZE
  {
    && b.right <= SIZE && b.bottom <= SIZE
    && (forall i, j :: 0 <= i < SIZE && 0 <= j < SIZE && Visible(source, i, j) && Earlier(i, j, x, y) ==> b.Holds(i, j))
    && (if b.right == 0 then b == Box(SIZE, SIZE, 0, 0)
        else
          && b.left < b.right && b.top < b.bottom
          && ColumnShows(source, b.left) && ColumnShows(source, b.right - 1)
          && RowShows(source, b.top) && RowShows(source, b.bottom - 1))
  }

  lemma Widen(source: seq<Byte>, b: Box, x: nat, y: nat)
    requires IsSource(source) && x < SIZE && y < SIZE && Bounds(source, b, x, y) && Visible(source, x, y)
    ensures Bounds(source, Box(Min(b.left, x), Min(b.top, y), Max(b.right, x + 1), Max(b.bottom, y + 1)), x + 1, y)
  {
    assert ColumnShows(source, x) && RowShows(source, y);
    hide Visible, ColumnShows, RowShows;
  }

  lemma Pass(source: seq<Byte>, b: Box, x: nat, y: nat)
    requires IsSource(source) && x < SIZE && y < SIZE && Bounds(source, b, x, y) && !Visible(source, x, y)
    ensures Bounds(source, b, x + 1, y)
  {
    hide ColumnShows, RowShows;
    forall i, j | 0 <= i < SIZE && 0 <= j < SIZE && Visible(source, i, j) && Earlier(i, j, x + 1, y)
      ensures b.Holds(i, j)
    {
      assert Earlier(i, j, x, y);
    }
  }

  lemma NextRow(source: seq<Byte>, b: Box, y: nat)
    requires IsSource(source) && y < SIZE && Bounds(source, b, SIZE, y)
    ensures Bounds(source, b, 0, y + 1)
  {
    hide Visible, ColumnShows, RowShows;
  }

  method BoundingBox(source: seq<Byte>) returns (b: Box)
    requires IsSource(source)
    ensures Bounds(source, b, 0, SIZE)
  {
    b := Box(SIZE, SIZE, 0, 0);
    for y := 0 to SIZE
      invariant Bounds(source, b, 0, y)
    {
      for x := 0 to SIZE
        invariant Bounds(source, b, x, y)
      {
        hide Bounds;
        if source[(y * SIZE + x) * 4 + 3] > 0 {
          Widen(source, b, x, y);
          b := Box(Min(b.left, x), Min(b.top, y), Max(b.right, x + 1), Max(b.bottom, y + 1));
        } else {
          Pass(source, b, x, y);
        }
      }
      NextRow(source, b, y);
    }
  }

  // ---------------------------------------------------------------------
  // The pixels
  // ---------------------------------------------------------------------

  /** Byte c of pixel (x, y) in a canvas w pixels wide. */
  function Index(w: nat, x: nat, y: nat, c: nat): nat {
    (y * w + x) * 4 + c
  }

  datatype Rgba = Rgba(red: Byte, green: Byte, blue: Byte, alpha: Byte)

  /** The bytes hold pixel (x, y), row by row, four bytes a pixel. */
  predicate HasPixel(bytes: seq<Byte>, w: nat, x: nat, y: nat) {
    (y * w + x) * 4 + 4 <= |bytes|
  }

  function Pixel(bytes: seq<Byte>, w: nat, x: nat, y: nat): Rgba
    requires HasPixel(bytes, w, x, y)
  {
    var at := (y * w + x) * 4;
    Rgba(bytes[at], bytes[at + 1], bytes[at + 2], bytes[at + 3])
  }

  lemma IndexInRange(w: nat, h: nat, x: nat, y: nat, c: nat)
    requires x < w && y < h && c < 4
    ensures Index(w, x, y, c) < w * h * 4
  {
    MulMonotone(y + 1, h, w);
  }

  lemma RowsApart(w: nat, x1: nat, y1: nat, x2: nat, y2: nat)
    requires x1 < w && y1 < y2
    ensures y1 * w + x1 < y2 * w + x2
  {
    MulMonotone(y1 + 1, y2, w);
    assert (y1 + 1) * w == y1 * w + w;
  }

  lemma IndexInjective(w: nat, x1: nat, y1: nat, c1: nat, x2: nat, y2: nat, c2: nat)
    requires x1 < w && x2 < w && c1 < 4 && c2 < 4
    requires Index(w, x1, y1, c1) == Index(w, x2, y2, c2)
    ensures x1 == x2 && y1 == y2 && c1 == c2
  {
    if y1 < y2 {
      RowsApart(w, x1, y1, x2, y2);
    } else if y2 < y1 {
      RowsApart(w, x2, y2, x1, y1);
    }
  }

  function Shade(b: Byte, c: nat, dim: bool): Byte {
    if c == 3 && dim then b / 2 else b
  }

  /** The source byte behind byte c of art pixel (x, y). */
  function SourceByte(source: seq<Byte>, b: Box, x: nat, y: nat, c: nat): Byte
    requires IsSource(source) && b.left + x < SIZE && b.top + y < SIZE && c < 4
  {
    IndexInRange(SIZE, SIZE, b.left + x, b.top + y, c);
    source[Index(SIZE, b.left + x, b.top + y, c)]
  }

  /** What byte c of canvas pixel (x, y) should be: the shifted artwork, nothing around it. */
  function Wanted(source: seq<Byte>, b: Box, padX: nat, padY: nat, dim: bool, x: nat, y: nat, c: nat): Byte
    requires IsSource(source) && b.right <= SIZE && b.bottom <= SIZE && c < 4
  {
    if padX <= x && b.left + (x - padX) < b.right && padY <= y && b.top + (y - padY) < b.bottom
    then Shade(SourceByte(source, b, x - padX, y - padY, c), c, dim)
    else 0
  }

  /** Copy one pixel's four bytes, halving alpha alone when dim. */
  method CopyPixel(rgba: array<Byte>, w: nat, h: nat, px: nat, py: nat, source: seq<Byte>, src: nat, dim: bool)
    requires rgba.Length == w * h * 4 && px < w && py < h && src + 4 <= |source|
    modifies rgba
    ensures forall x, y, c :: 0 <= x < w && 0 <= y < h && 0 <= c < 4 ==>
              Index(w, x, y, c) < rgba.Length
              && rgba[Index(w, x, y, c)] ==
                 if x == px && y == py then Shade(source[src + c], c, dim) else old(rgba[..])[Index(w, x, y, c)]
    ensures HasPixel(rgba[..], w, px, py)
    ensures Pixel(rgba[..], w, px, py) ==
            Rgba(source[src], source[src + 1], source[src + 2], if dim then source[src + 3] / 2 else source[src + 3])
  {
    var dst := Index(w, px, py, 0);
    IndexInRange(w, h, px, py, 3);
    rgba[dst], rgba[dst + 1], rgba[dst + 2], rgba[dst + 3] :=
      source[src], source[src + 1], source[src + 2], source[src + 3];
    if dim {
      rgba[dst + 3] := rgba[dst + 3] / 2;
    }
    forall x, y, c | 0 <= x < w && 0 <= y < h && 0 <= c < 4
      ensures Index(w, x, y, c) < rgba.Length
      ensures rgba[Index(w, x, y, c)] ==
              if x == px && y == py then Shade(source[src + c], c, dim) else old(rgba[..])[Index(w, x, y, c)]
    {
      IndexInRange(w, h, x, y, c);
      if x == px && y == py {
      } else if dst <= Index(w, x, y, c) < dst + 4 {
        IndexInjective(w, x, y, c, px, py, Index(w, x, y, c) - dst);
      }
    }
  }

  /** Every canvas byte is its wanted one up to art pixel (x, y) in reading order, and 0 from there on. */
  ghost predicate Filled(rgba: seq<Byte>, w: nat, h: nat, source: seq<Byte>, b: Box, padX: nat, padY: nat, dim: bool,
                         x: nat, y: nat)
    requires IsSource(source) && b.right <= SIZE && b.bottom <= SIZE
  {
    && |rgba| == w * h * 4
    && forall i, j, c :: 0 <= i < w && 0 <= j < h && 0 <= c < 4 ==>
         Index(w, i, j, c) < |rgba|
         && rgba[Index(w, i, j, c)] ==
            if Earlier(i, j, padX + x, padY + y) then Wanted(source, b, padX, padY, dim, i, j, c) else 0
  }

  function Pad(total: nat, art: nat): nat {
    if total < art then 0 else (total - art) / 2
  }

  /** The trimmed artwork, unscaled and whole, in the middle of a canvas of the fitted size. */
  ghost predicate IsPicture(rgba: seq<Byte>, w: nat, h: nat, source: seq<Byte>, b: Box, cell: CellSize, dim: bool)
    requires IsSource(source)
  {
    && b.left < b.right <= SIZE && b.top < b.bottom <= SIZE
    && (w, h) == Fit(b.right - b.left, b.bottom - b.top, cell)
    && Filled(rgba, w, h, source, b, Pad(w, b.right - b.left), Pad(h, b.bottom - b.top), dim, 0, h)
  }

  /** The two copying loops. */
  method CopyArt(rgba: array<Byte>, w: nat, h: nat, source: seq<Byte>, box: Box, padX: nat, padY: nat, dim: bool)
    requires IsSource(source) && box.left <= box.right <= SIZE && box.top <= box.bottom <= SIZE
    requires padX + (box.right - box.left) <= w && padY + (box.bottom - box.top) <= h
    requires Filled(rgba[..], w, h, source, box, padX, padY, dim, 0, 0)
    modifies rgba
    ensures Filled(rgba[..], w, h, source, box, padX, padY, dim, 0, h)
  {
    hide Filled;
    var artW, artH := box.right - box.left, box.bottom - box.top;
    FilledLength(rgba[..], w, h, source, box, padX, padY, dim, 0, 0);
    for y := 0 to artH
      invariant Filled(rgba[..], w, h, source, box, padX, padY, dim, 0, y)
    {
      for x := 0 to artW
        invariant Filled(rgba[..], w, h, source, box, padX, padY, dim, x, y)
      {
        ghost var was := rgba[..];
        IndexInRange(SIZE, SIZE, x + box.left, y + box.top, 3);
        CopyPixel(rgba, w, h, x + padX, y + padY, source, Index(SIZE, x + box.left, y + box.top, 0), dim);
        FillOne(was, rgba[..], w, h, source, box, padX, padY, dim, x, y);
      }
      FillRow(rgba[..], w, h, source, box, padX, padY, dim, y);
    }
    FillRest(rgba[..], w, h, source, box, padX, padY, dim);
  }

  lemma FilledLength(rgba: seq<Byte>, w: nat, h: nat, source: seq<Byte>, b: Box, padX: nat, padY: nat, dim: bool,
                     x: nat, y: nat)
    requires IsSource(source) && b.right <= SIZE && b.bottom <= SIZE
    requires Filled(rgba, w, h, source, b, padX, padY, dim, x, y)
    ensures |rgba| == w * h * 4
  {
  }

  ghost predicate AllZero(rgba: seq<Byte>) {
    forall i :: 0 <= i < |rgba| ==> rgba[i] == 0
  }

  method Blank(w: nat, h: nat) returns (rgba: array<Byte>)
    ensures fresh(rgba) && |rgba[..]| == w * h * 4 && AllZero(rgba[..])
  {
    rgba := new Byte[w * h * 4](i => 0);
  }

  method Canvas(source: seq<Byte>, cell: CellSize, dim: bool)
    returns (w: nat, h: nat, rgba: array<Byte>, ghost b: Box)
    requires IsSource(source)
    ensures Bounds(source, b, 0, SIZE) && fresh(rgba)
    ensures b.right == 0 ==> w == 1 && h == 1 && rgba[..] == [0, 0, 0, 0]
    ensures b.right != 0 ==> IsPicture(rgba[..], w, h, source, b, cell, dim)
  {
    var box := BoundingBox(source);
    b := box;
    if box.right == 0 {
      rgba := new Byte[4](i => 0);
      return 1, 1, rgba, b;
    }
    var artW, artH := box.right - box.left, box.bottom - box.top;
    var size := Fit(artW, artH, cell);
    FitHoldsTheArt(artW, artH, cell);
    var padX, padY := (size.0 - artW) / 2, (size.1 - artH) / 2;
    assert padX == Pad(size.0, artW) && padY == Pad(size.1, artH);
    hide *;
    w, h := size.0, size.1;
    rgba := Blank(w, h);
    StartFilled(rgba[..], w, h, source, box, padX, padY, dim);
    CopyArt(rgba, w, h, source, box, padX, padY, dim);
  }

  /** Every visible source pixel is in the picture, colour untouched, alpha alone halved when dim. */
  lemma VisiblePixelKept(rgba: seq<Byte>, w: nat, h: nat, source: seq<Byte>, b: Box, cell: CellSize, dim: bool,
                         x: nat, y: nat)
    requires IsSource(source) && Bounds(source, b, 0, SIZE) && IsPicture(rgba, w, h, source, b, cell, dim)
    requires x < SIZE && y < SIZE && source[(y * SIZE + x) * 4 + 3] > 0
    ensures b.Holds(x, y) && HasPixel(source, SIZE, x, y)
    ensures var i, j := Pad(w, b.right - b.left) + (x - b.left), Pad(h, b.bottom - b.top) + (y - b.top);
            var p := Pixel(source, SIZE, x, y);
            && i < w && j < h && HasPixel(rgba, w, i, j)
            && Pixel(rgba, w, i, j) == p.(alpha := if dim then p.alpha / 2 else p.alpha)
  {
    PixelKept(rgba, w, h, source, b, cell, dim, x, y);
    var i, j := Pad(w, b.right - b.left) + (x - b.left), Pad(h, b.bottom - b.top) + (y - b.top);
    hide *;
    ShadedPixel(rgba, w, h, i, j, source, x, y, dim);
  }

  lemma ShadedPixel(rgba: seq<Byte>, w: nat, h: nat, i: nat, j: nat, source: seq<Byte>, x: nat, y: nat, dim: bool)
    requires i < w && j < h && |rgba| == w * h * 4 && IsSource(source) && x < SIZE && y < SIZE
    requires forall c :: 0 <= c < 4 ==>
               Index(w, i, j, c) < |rgba| && Index(SIZE, x, y, c) < |source|
               && rgba[Index(w, i, j, c)] == Shade(source[Index(SIZE, x, y, c)], c, dim)
    ensures HasPixel(source, SIZE, x, y) && HasPixel(rgba, w, i, j)
    ensures var p := Pixel(source, SIZE, x, y);
            Pixel(rgba, w, i, j) == p.(alpha := if dim then p.alpha / 2 else p.alpha)
  {
    FourBytes(rgba, w, i, j);
    FourBytes(source, SIZE, x, y);
    hide Index;
  }

  /** Where the four bytes of a pixel are. */
  lemma FourBytes(bytes: seq<Byte>, w: nat, x: nat, y: nat)
    requires Index(w, x, y, 3) < |bytes|
    ensures HasPixel(bytes, w, x, y)
    ensures forall c :: 0 <= c < 4 ==> Index(w, x, y, c) < |bytes|
    ensures Pixel(bytes, w, x, y) ==
            Rgba(bytes[Index(w, x, y, 0)], bytes[Index(w, x, y, 1)], bytes[Index(w, x, y, 2)], bytes[Index(w, x, y, 3)])
  {
  }

  /** The art stands in the middle, give or take half a pixel. */
  lemma ArtIsCentred(total: nat, art: nat)
    requires art <= total
    ensures var left := Pad(total, art); var right := total - art - left;
            right == left || right == left + 1
  {
  }

  lemma PixelKept(rgba: seq<Byte>, w: nat, h: nat, source: seq<Byte>, b: Box, cell: CellSize, dim: bool, x: nat, y: nat)
    requires IsSource(source) && Bounds(source, b, 0, SIZE) && IsPicture(rgba, w, h, source, b, cell, dim)
    requires x < SIZE && y < SIZE && Visible(source, x, y)
    ensures b.Holds(x, y)
    ensures var i, j := Pad(w, b.right - b.left) + (x - b.left), Pad(h, b.bottom - b.top) + (y - b.top);
            && i < w && j < h
            && forall c :: 0 <= c < 4 ==>
                 Index(w, i, j, c) < |rgba| && Index(SIZE, x, y, c) < |source|
                 && rgba[Index(w, i, j, c)] == Shade(source[Index(SIZE, x, y, c)], c, dim)
  {
    assert Earlier(x, y, 0, SIZE);
    FitHoldsTheArt(b.right - b.left, b.bottom - b.top, cell);
    hide Fit;
    var i, j := Pad(w, b.right - b.left) + (x - b.left), Pad(h, b.bottom - b.top) + (y - b.top);
    forall c | 0 <= c < 4
      ensures Index(w, i, j, c) < |rgba| && Index(SIZE, x, y, c) < |source|
      ensures rgba[Index(w, i, j, c)] == Shade(source[Index(SIZE, x, y, c)], c, dim)
    {
      IndexInRange(SIZE, SIZE, x, y, c);
      hide Index;
      assert Earlier(i, j, Pad(w, b.right - b.left), Pad(h, b.bottom - b.top) + h);
    }
  }

  /** Nothing else shows; in particular the first and the last row are blank, whatever the cell. */
  lemma MarginsAreBlank(rgba: seq<Byte>, w: nat, h: nat, source: seq<Byte>, b: Box, cell: CellSize, dim: bool,
                        i: nat, j: nat)
    requires IsSource(source) && IsPicture(rgba, w, h, source, b, cell, dim) && i < w && j < h
    requires var padX, padY := Pad(w, b.right - b.left), Pad(h, b.bottom - b.top);
             !(padX <= i < padX + (b.right - b.left) && padY <= j < padY + (b.bottom - b.top))
             || j == 0 || j == h - 1
    ensures forall c :: 0 <= c < 4 ==> Index(w, i, j, c) < |rgba| && rgba[Index(w, i, j, c)] == 0
    ensures HasPixel(rgba, w, i, j) && Pixel(rgba, w, i, j) == Rgba(0, 0, 0, 0)
  {
    BlankHere(rgba, w, h, source, b, cell, dim, i, j);
    hide *;
    FourBytes(rgba, w, i, j);
  }

  lemma BlankHere(rgba: seq<Byte>, w: nat, h: nat, source: seq<Byte>, b: Box, cell: CellSize, dim: bool, i: nat, j: nat)
    requires IsSource(source) && IsPicture(rgba, w, h, source, b, cell, dim) && i < w && j < h
    requires var padX, padY := Pad(w, b.right - b.left), Pad(h, b.bottom - b.top);
             !(padX <= i < padX + (b.right - b.left) && padY <= j < padY + (b.bottom - b.top))
             || j == 0 || j == h - 1
    ensures forall c :: 0 <= c < 4 ==> Index(w, i, j, c) < |rgba| && rgba[Index(w, i, j, c)] == 0
  {
    FitHoldsTheArt(b.right - b.left, b.bottom - b.top, cell);
    hide Fit, Index;
    assert Earlier(i, j, Pad(w, b.right - b.left), Pad(h, b.bottom - b.top) + h);
  }

  lemma StartFilled(rgba: seq<Byte>, w: nat, h: nat, source: seq<Byte>, b: Box, padX: nat, padY: nat, dim: bool)
    requires IsSource(source) && b.right <= SIZE && b.bottom <= SIZE
    requires |rgba| == w * h * 4 && AllZero(rgba)
    ensures Filled(rgba, w, h, source, b, padX, padY, dim, 0, 0)
  {
    forall i, j, c | 0 <= i < w && 0 <= j < h && 0 <= c < 4
      ensures Index(w, i, j, c) < |rgba|
      ensures Earlier(i, j, padX, padY) ==> Wanted(source, b, padX, padY, dim, i, j, c) == 0
    {
      IndexInRange(w, h, i, j, c);
    }
  }

  lemma FillOne(was: seq<Byte>, now: seq<Byte>, w: nat, h: nat, source: seq<Byte>, b: Box, padX: nat, padY: nat,
                dim: bool, x: nat, y: nat)
    requires IsSource(source) && b.right <= SIZE && b.bottom <= SIZE
    requires b.left + x < b.right && b.top + y < b.bottom
    requires Filled(was, w, h, source, b, padX, padY, dim, x, y) && |now| == |was|
    requires Index(SIZE, x + b.left, y + b.top, 0) + 4 <= |source|
    requires forall i, j, c :: 0 <= i < w && 0 <= j < h && 0 <= c < 4 ==>
               Index(w, i, j, c) < |now|
               && now[Index(w, i, j, c)] ==
                  if i == padX + x && j == padY + y
                  then Shade(source[Index(SIZE, x + b.left, y + b.top, 0) + c], c, dim)
                  else was[Index(w, i, j, c)]
    ensures Filled(now, w, h, source, b, padX, padY, dim, x + 1, y)
  {
    hide Index;
    forall c | 0 <= c < 4
      ensures SourceByte(source, b, x, y, c) == source[Index(SIZE, x + b.left, y + b.top, 0) + c]
    {
      IndexSteps(SIZE, b.left + x, b.top + y, c);
    }
  }

  lemma IndexSteps(w: nat, x: nat, y: nat, c: nat)
    ensures Index(w, x, y, c) == Index(w, x, y, 0) + c
  {
  }

  lemma FillRow(rgba: seq<Byte>, w: nat, h: nat, source: seq<Byte>, b: Box, padX: nat, padY: nat, dim: bool, y: nat)
    requires IsSource(source) && b.left <= b.right <= SIZE && b.bottom <= SIZE
    requires Filled(rgba, w, h, source, b, padX, padY, dim, b.right - b.left, y)
    ensures Filled(rgba, w, h, source, b, padX, padY, dim, 0, y + 1)
  {
    hide Index;
  }

  lemma FillRest(rgba: seq<Byte>, w: nat, h: nat, source: seq<Byte>, b: Box, padX: nat, padY: nat, dim: bool)
    requires IsSource(source) && b.right <= SIZE && b.top <= b.bottom <= SIZE
    requires Filled(rgba, w, h, source, b, padX, padY, dim, 0, b.bottom - b.top)
    ensures Filled(rgba, w, h, source, b, padX, padY, dim, 0, h)
  {
    hide Index;
  }
}
