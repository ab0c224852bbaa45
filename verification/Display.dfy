/**
  The double-buffered display of `kernel/src/platform/d1_display.rs`: drawing goes to the back
  buffer, a dirty rectangle tracks what was touched, and a flush copies only that rectangle.
*/
module Display {
  const W: nat := 1024
  const H: nat := 768
  const SIZE: nat := 786432
  const U32: nat := 0x1_0000_0000
  const BLACK: Pixel := 0xFF000000
  const WHITE: Pixel := 0xFFFFFFFF

  type Pixel = p: int | 0 <= p < 0x1_0000_0000

  /** Columns x0 to x1 and rows y0 to y1, the upper ends excluded. */
  datatype Rect = Rect(x0: int, y0: int, x1: int, y1: int)

  predicate Inside(i: int, r: Rect) { r.x0 <= i % W < r.x1 && r.y0 <= i / W < r.y1 }

  // ---------------------------------------------------------------- what each operation paints

  datatype Draw =
    | Point(x: nat, y: nat, p: Pixel)
    | Clear(p: Pixel)
    | Line(x: nat, y: nat, width: nat, p: Pixel)
    | Fill(x: nat, y: nat, width: nat, height: nat, p: Pixel)
    | Masked(x: nat, y: nat, w: nat, h: nat, buf: seq<Pixel>, mask: seq<bv8>)
    | Blit(x: nat, y: nat, w: nat, h: nat, buf: seq<Pixel>)
    | Cursor(cx: int, cy: int, w: nat, h: nat, bitmap: seq<bv8>)

  /** The part of the plane that an operation is about, before clipping to the screen. */
  function Area(d: Draw): Rect {
    match d
    case Point(x, y, _) => Rect(x, y, x + 1, y + 1)
    case Clear(_) => Rect(0, 0, W, H)
    case Line(x, y, width, _) => Rect(x, y, x + width, y + 1)
    case Fill(x, y, width, height, _) => Rect(x, y, x + width, y + height)
    case Masked(x, y, w, h, _, _) => Rect(x, y, x + w, y + h)
    case Blit(x, y, w, h, buf) => if |buf| < w * h then Rect(x, y, x, y) else Rect(x, y, x + w, y + h)
    case Cursor(x, y, w, h, _) => Rect(x, y, x + w, y + h)
  }

  /** What d makes of a pixel at the given column and row of its area. */
  function Ink(d: Draw, col: nat, row: nat, p: Pixel): Pixel {
    match d
    case Point(_, _, q) => q
    case Clear(q) => q
    case Line(_, _, _, q) => q
    case Fill(_, _, _, _, q) => q
    case Masked(_, _, w, _, buf, mask) =>
      var k := row * w + col;
      if k < |buf| && k < |mask| && mask[k] != 0 then buf[k] else p
    case Blit(_, _, w, _, buf) =>
      var k := row * w + col;
      if k < |buf| then buf[k] else p
    case Cursor(_, _, w, _, bitmap) =>
      var k := row * w + col;
      if k < |bitmap| && bitmap[k] == 1 then BLACK
      else if k < |bitmap| && bitmap[k] == 2 then WHITE
      else p
  }

  /** The column of the operation's area that the pixel at index i shows; those of write_rect wrap at 32 bits. */
  function ColOf(d: Draw, i: int): int {
    if d.Masked? then (i % W - d.x) % U32 else i % W - Area(d).x0
  }

  /** The pixel at index i is one that the operation is about. */
  predicate Touches(d: Draw, i: int) {
    if d.Masked? then d.y <= i / W < d.y + d.h && ColOf(d, i) < d.w else Inside(i, Area(d))
  }

  /** The reference: what operation d makes of the single pixel at index i. */
  function PaintAt(d: Draw, i: int, p: Pixel): Pixel {
    if Touches(d, i) then Ink(d, ColOf(d, i), i / W - Area(d).y0, p) else p
  }

  ghost predicate Painted(d: Draw, before: seq<Pixel>, after: seq<Pixel>) {
    |before| == |after| == SIZE && forall i :: 0 <= i < SIZE ==> after[i] == PaintAt(d, i, before[i])
  }

  // ---------------------------------------------------------------- the dirty rectangle

  function Min(a: int, b: int): int { if a < b then a else b }

  function Max(a: int, b: int): int { if a < b then b else a }

  function NoBounds(): Rect { Rect(W, H, 0, 0) }

  /** mark_dirty on the bounds; the 32-bit sums wrap. */
  function Grow(b: Rect, x: nat, y: nat, width: nat, height: nat): Rect {
    Rect(Min(b.x0, x), Min(b.y0, y),
         Max(b.x1, Min((x + width) % U32, W)), Max(b.y1, Min((y + height) % U32, H)))
  }

  predicate Clamped(b: Rect) { 0 <= b.x0 <= W && 0 <= b.y0 <= H && 0 <= b.x1 <= W && 0 <= b.y1 <= H }

  /** Growing keeps what was covered and covers the marked rectangle's visible part. */
  lemma GrowCovers(b: Rect, x: nat, y: nat, width: nat, height: nat, i: nat)
    requires i < SIZE && Clamped(b)
    ensures Inside(i, b) ==> Inside(i, Grow(b, x, y, width, height))
    ensures x + width < U32 && y + height < U32 && Inside(i, Rect(x, y, x + width, y + height)) ==>
              Inside(i, Grow(b, x, y, width, height))
  {
  }

  /**
    On a clean screen, marking a visible rectangle covers its visible part if and only if neither
    32-bit sum overflows; an overflowing mark loses the whole rectangle.
  */
  lemma MarkCovers(x: nat, y: nat, width: nat, height: nat)
    requires x < W && y < H && 0 < width < U32 && 0 < height < U32
    ensures
      (forall i :: 0 <= i < SIZE && Inside(i, Rect(x, y, x + width, y + height)) ==>
         Inside(i, Grow(NoBounds(), x, y, width, height)))
      <==> x + width < U32 && y + height < U32
  {
    if x + width < U32 && y + height < U32 {
      forall i | 0 <= i < SIZE && Inside(i, Rect(x, y, x + width, y + height))
        ensures Inside(i, Grow(NoBounds(), x, y, width, height))
      {
        GrowCovers(NoBounds(), x, y, width, height, i);
      }
    } else {
      var i := y * W + x;
      assert i % W == x && i / W == y;
      assert Inside(i, Rect(x, y, x + width, y + height));
      assert x + width >= U32 ==> (x + width) % U32 == x + width - U32;
      assert y + height >= U32 ==> (y + height) % U32 == y + height - U32;
      assert !Inside(i, Grow(NoBounds(), x, y, width, height));
    }
  }

  /** Where front and back may differ: inside the dirty bounds, or where a batch still owes a mark. */
  ghost predicate Coherent(front: seq<Pixel>, back: seq<Pixel>, dirty: bool, bounds: Rect, owed: set<int>) {
    && |front| == |back| == SIZE
    && forall i :: 0 <= i < SIZE && front[i] != back[i] ==> (dirty && Inside(i, bounds)) || i in owed
  }

  lemma MarkKeeps(front: seq<Pixel>, back: seq<Pixel>, dirty: bool, bounds: Rect, owed: set<int>,
                  x: nat, y: nat, width: nat, height: nat)
    requires Coherent(front, back, dirty, bounds, owed) && Clamped(bounds)
    ensures
      var b := Grow(bounds, x, y, width, height);
      Coherent(front, back, true, b, set i | i in owed && !Inside(i, b))
  {
    forall i | 0 <= i < SIZE && Inside(i, bounds) ensures Inside(i, Grow(bounds, x, y, width, height)) {
      GrowCovers(bounds, x, y, width, height, i);
    }
  }

  ghost function Pixels(r: Rect): set<int> { set i | 0 <= i < SIZE && Inside(i, r) }

  ghost function Touched(d: Draw): set<int> { set i | 0 <= i < SIZE && Touches(d, i) }

  /** Until it is marked, everything an operation is about counts as owed. */
  lemma PaintedOwed(d: Draw, front: seq<Pixel>, b0: seq<Pixel>, b1: seq<Pixel>, dirty: bool, bounds: Rect, owed: set<int>)
    requires Coherent(front, b0, dirty, bounds, owed) && Painted(d, b0, b1)
    ensures Coherent(front, b1, dirty, bounds, owed + Touched(d))
  {
  }

  /** A mark that contains the drawing pays what it owed. */
  lemma MarkPays(d: Draw, bounds: Rect, owed: set<int>, x: nat, y: nat, width: nat, height: nat)
    requires Clamped(bounds) && x + width < U32 && y + height < U32
    requires forall i :: 0 <= i < SIZE && Touches(d, i) ==> Inside(i, Rect(x, y, x + width, y + height))
    ensures
      var b := Grow(bounds, x, y, width, height);
      (set i | i in owed + Touched(d) && !Inside(i, b)) <= owed
  {
    forall i | i in Touched(d) ensures Inside(i, Grow(bounds, x, y, width, height)) {
      GrowCovers(bounds, x, y, width, height, i);
    }
  }

  // ---------------------------------------------------------------- writes whose coordinates overflow

  /** The marked rows reach as far down as the drawn ones. */
  predicate RowsMarked(y: nat, h: nat) { Min((y + h) % U32, H) == Min(y + h, H) }

  /** When the mark of write_rect covers everything it may draw. */
  predicate Coverable(x: nat, y: nat, w: nat, h: nat) {
    || w == 0 || h == 0 || y >= H
    || (x >= W && x + w <= U32)
    || (x < W && x + w < U32 && RowsMarked(y, h))
  }

  lemma WrappedColumn(px: nat, x: nat, col: nat)
    requires px < U32 && x < U32 && col < U32
    ensures (px - x) % U32 == col <==> px == (x + col) % U32
  {
  }

  lemma ColumnValue(px: nat, x: nat)
    requires px < U32 && x < U32
    ensures (px - x) % U32 == if px < x then px - x + U32 else px - x
  {
  }

  lemma CoverableInside(d: Draw, b: Rect, i: nat)
    requires d.Masked? && d.x < U32 && d.w <= U32 && i < SIZE && Clamped(b)
    requires Coverable(d.x, d.y, d.w, d.h) && Touches(d, i)
    ensures Inside(i, Grow(b, d.x, d.y, d.w, d.h))
  {
    ColumnValue(i % W, d.x);
  }

  /** A pixel that is drawn but not marked, when the condition fails. */
  lemma Unmarked(d: Draw) returns (i: nat)
    requires d.Masked? && d.x < U32 && d.w <= U32 && !Coverable(d.x, d.y, d.w, d.h)
    ensures i < SIZE && Touches(d, i) && !Inside(i, Grow(NoBounds(), d.x, d.y, d.w, d.h))
  {
    var x, y, w, h := d.x, d.y, d.w, d.h;
    var px := if x < W then x else 0;
    var py := if x < W && x + w < U32 then Min(y + h, H) - 1 else y;
    i := py * W + px;
    assert i % W == px && i / W == py;
    assert x + w >= U32 ==> (x + w) % U32 == if x + w == 2 * U32 then 0 else x + w - U32;
    ColumnValue(px, x);
  }

  /** write_rect marks everything it may draw if and only if the condition holds. */
  lemma WriteCovers(d: Draw)
    requires d.Masked? && d.x < U32 && d.w <= U32
    ensures (forall i :: 0 <= i < SIZE && Touches(d, i) ==> Inside(i, Grow(NoBounds(), d.x, d.y, d.w, d.h)))
            <==> Coverable(d.x, d.y, d.w, d.h)
  {
    if Coverable(d.x, d.y, d.w, d.h) {
      forall i | 0 <= i < SIZE && Touches(d, i) ensures Inside(i, Grow(NoBounds(), d.x, d.y, d.w, d.h)) {
        CoverableInside(d, NoBounds(), i);
      }
    } else {
      var i := Unmarked(d);
    }
  }

  // ---------------------------------------------------------------- painting row by row

  predicate Rowwise(d: Draw) { d.Fill? || d.Masked? || d.Blit? || d.Cursor? }

  function Top(d: Draw): int
    requires Rowwise(d)
  {
    Area(d).y0
  }

  /** The first n rows of an operation. */
  function FirstRows(d: Draw, n: nat): Draw
    requires Rowwise(d)
  {
    match d
    case Fill(x, y, width, _, p) => Fill(x, y, width, n, p)
    case Masked(x, y, w, _, buf, mask) => Masked(x, y, w, n, buf, mask)
    case Blit(x, y, w, _, buf) => Blit(x, y, w, n, buf)
    case Cursor(x, y, w, _, bitmap) => Cursor(x, y, w, n, bitmap)
  }

  function Rows(d: Draw): nat
    requires Rowwise(d)
  {
    if d.Fill? then d.height else d.h
  }

  /** One screen row painted, the rest untouched. */
  ghost predicate PaintedRow(d: Draw, y: int, before: seq<Pixel>, after: seq<Pixel>) {
    && |before| == |after| == SIZE
    && forall i :: 0 <= i < SIZE ==> after[i] == if i / W == y then PaintAt(d, i, before[i]) else before[i]
  }

  lemma FirstRowsInk(d: Draw, n: nat, col: nat, row: nat, p: Pixel)
    requires Rowwise(d)
    ensures Ink(FirstRows(d, n), col, row, p) == Ink(d, col, row, p)
  {
  }

  lemma FirstRowsArea(d: Draw, n: nat)
    requires Rowwise(d) && n <= Rows(d) && (d.Blit? ==> d.w * d.h <= |d.buf|)
    ensures Area(d).y1 == Top(d) + Rows(d)
    ensures Area(FirstRows(d, n)) == Area(d).(y1 := Top(d) + n)
  {
    if d.Blit? {
      assert d.w * n <= d.w * d.h;
    }
  }

  lemma FirstRowsTouch(d: Draw, n: nat, i: nat)
    requires Rowwise(d) && n <= Rows(d) && (d.Blit? ==> d.w * d.h <= |d.buf|)
    ensures Touches(FirstRows(d, n), i) <==> Touches(d, i) && i / W < Top(d) + n
    ensures ColOf(FirstRows(d, n), i) == ColOf(d, i) && Area(FirstRows(d, n)).y0 == Area(d).y0
  {
    FirstRowsArea(d, n);
  }

  lemma FirstRowsAt(d: Draw, n: nat, i: nat, p: Pixel)
    requires Rowwise(d) && n <= Rows(d) && (d.Blit? ==> d.w * d.h <= |d.buf|)
    ensures PaintAt(FirstRows(d, n), i, p) == if i / W < Top(d) + n then PaintAt(d, i, p) else p
  {
    FirstRowsTouch(d, n, i);
    if Touches(d, i) {
      FirstRowsInk(d, n, ColOf(d, i), i / W - Area(d).y0, p);
    }
  }

  lemma NextRow(d: Draw, n: nat, b0: seq<Pixel>, b1: seq<Pixel>, b2: seq<Pixel>)
    requires Rowwise(d) && n < Rows(d) && (d.Blit? ==> d.w * d.h <= |d.buf|)
    requires Painted(FirstRows(d, n), b0, b1) && PaintedRow(d, Top(d) + n, b1, b2)
    ensures Painted(FirstRows(d, n + 1), b0, b2)
  {
    forall i | 0 <= i < SIZE ensures b2[i] == PaintAt(FirstRows(d, n + 1), i, b0[i]) {
      FirstRowsAt(d, n, i, b0[i]);
      FirstRowsAt(d, n + 1, i, b0[i]);
    }
  }

  /** Rows below the screen do not matter. */
  lemma EnoughRows(d: Draw, n: nat, b0: seq<Pixel>, b1: seq<Pixel>)
    requires Rowwise(d) && n <= Rows(d) && (d.Blit? ==> d.w * d.h <= |d.buf|)
    requires n == Rows(d) || Top(d) + n >= H
    requires Painted(FirstRows(d, n), b0, b1)
    ensures Painted(d, b0, b1)
  {
    forall i | 0 <= i < SIZE ensures b1[i] == PaintAt(d, i, b0[i]) {
      FirstRowsAt(d, n, i, b0[i]);
    }
  }

  lemma NoRows(d: Draw, b: seq<Pixel>)
    requires Rowwise(d) && |b| == SIZE && (d.Blit? ==> d.w * d.h <= |d.buf|)
    ensures Painted(FirstRows(d, 0), b, b)
  {
    FirstRowsArea(d, 0);
  }

  // ---------------------------------------------------------------- writing pixels in place

  lemma PointPainted(x: nat, y: nat, p: Pixel, b: seq<Pixel>)
    requires |b| == SIZE
    ensures Painted(Point(x, y, p), b, if x < W && y < H then b[y * W + x := p] else b)
  {
  }

  lemma RowSpan(i: nat, x: nat, y: nat, width: nat)
    requires i < SIZE && x < W && y < H
    ensures y * W + x <= i < y * W + x + Min(width, W - x) <==> Inside(i, Rect(x, y, x + width, y + 1))
  {
  }

  lemma LinePainted(x: nat, y: nat, width: nat, p: Pixel, b0: seq<Pixel>, b1: seq<Pixel>)
    requires |b0| == |b1| == SIZE && x < W && y < H
    requires forall i :: 0 <= i < SIZE ==>
               b1[i] == if y * W + x <= i < y * W + x + Min(width, W - x) then p else b0[i]
    ensures Painted(Line(x, y, width, p), b0, b1)
  {
    forall i | 0 <= i < SIZE ensures b1[i] == PaintAt(Line(x, y, width, p), i, b0[i]) {
      RowSpan(i, x, y, width);
    }
  }

  lemma LineIsRow(d: Draw, row: nat, b1: seq<Pixel>, b2: seq<Pixel>)
    requires d.Fill? && row < d.height && Painted(Line(d.x, d.y + row, d.width, d.p), b1, b2)
    ensures PaintedRow(d, d.y + row, b1, b2)
  {
  }

  /** The span from start, two pixels at a time when it is long enough. */
  method FillSpan(a: array<Pixel>, start: nat, w: nat, p: Pixel)
    requires start + w <= a.Length
    modifies a
    ensures forall i :: 0 <= i < a.Length ==> a[i] == if start <= i < start + w then p else old(a[i])
  {
    var done := 0;
    if w >= 4 {
      var pairs := w / 2;
      for k := 0 to pairs
        invariant forall i :: 0 <= i < a.Length ==> a[i] == if start <= i < start + 2 * k then p else old(a[i])
      {
        a[start + 2 * k] := p;
        a[start + 2 * k + 1] := p;
      }
      done := pairs * 2;
    }
    for k := done to w
      invariant forall i :: 0 <= i < a.Length ==> a[i] == if start <= i < start + k then p else old(a[i])
    {
      a[start + k] := p;
    }
  }

  /** A run of n source pixels from buf[from..] copied to the span from start. */
  method CopySpan(a: array<Pixel>, start: nat, n: nat, buf: seq<Pixel>, from: nat)
    requires start + n <= a.Length && from + n <= |buf|
    modifies a
    ensures forall i :: 0 <= i < a.Length ==>
              a[i] == if start <= i < start + n then buf[from + (i - start)] else old(a[i])
  {
    for k := 0 to n
      invariant forall i :: 0 <= i < a.Length ==>
                  a[i] == if start <= i < start + k then buf[from + (i - start)] else old(a[i])
    {
      a[start + k] := buf[from + k];
    }
  }

  /** One row of a masked write: every visible column whose mask is set takes its source pixel. */
  method WriteRow(a: array<Pixel>, x: nat, y: nat, row: nat, w: nat, h: nat, buf: seq<Pixel>, mask: seq<bv8>)
    requires a.Length == SIZE && row < h && y + row < H && x < U32 && w <= U32
    modifies a
    ensures PaintedRow(Masked(x, y, w, h, buf, mask), y + row, old(a[..]), a[..])
  {
    ghost var d := Masked(x, y, w, h, buf, mask);
    for col := 0 to w
      invariant forall i :: 0 <= i < SIZE ==>
                  a[i] == if i / W == y + row && ColOf(d, i) < col then PaintAt(d, i, old(a[i])) else old(a[i])
    {
      var cx := (x + col) % U32;
      forall i | 0 <= i < SIZE ensures ColOf(d, i) == col <==> i % W == cx {
        WrappedColumn(i % W, x, col);
      }
      if cx < W {
        var k := row * w + col;
        if k < |buf| && k < |mask| && mask[k] != 0 {
          a[(y + row) * W + cx] := buf[k];
        }
      }
    }
  }

  /** The bitmap has a byte for every pixel of the cursor that is on the screen. */
  ghost predicate BitmapShown(x: int, y: int, w: nat, h: nat, bitmap: seq<bv8>) {
    forall i :: 0 <= i < SIZE && Inside(i, Rect(x, y, x + w, y + h)) ==> (i / W - y) * w + (i % W - x) < |bitmap|
  }

  /** One row of the cursor: 1 is border, 2 is fill, anything else and anything off screen is skipped. */
  method CursorRow(a: array<Pixel>, x: int, y: int, row: nat, w: nat, h: nat, bitmap: seq<bv8>)
    requires a.Length == SIZE && row < h && 0 <= y + row < H && BitmapShown(x, y, w, h, bitmap)
    modifies a
    ensures PaintedRow(Cursor(x, y, w, h, bitmap), y + row, old(a[..]), a[..])
  {
    ghost var d := Cursor(x, y, w, h, bitmap);
    for col := 0 to w
      invariant forall i :: 0 <= i < SIZE ==>
                  a[i] == if i / W == y + row && i % W < x + col then PaintAt(d, i, old(a[i])) else old(a[i])
    {
      var cx := x + col;
      if 0 <= cx < W {
        ghost var i := (y + row) * W + cx;
        assert i % W == cx && i / W == y + row && Inside(i, Rect(x, y, x + w, y + h));
        var kind := bitmap[row * w + col];
        if kind == 1 {
          a[(y + row) * W + cx] := BLACK;
        } else if kind == 2 {
          a[(y + row) * W + cx] := WHITE;
        }
      }
    }
  }

  lemma {:induction false} RowsBelow(row: nat, w: nat, h: nat)
    requires row < h
    ensures row * w + w <= w * h
    decreases h
  {
    if row < h - 1 {
      RowsBelow(row, w, h - 1);
    }
    assert w * h == w * (h - 1) + w;
  }

  lemma InBitmap(row: nat, col: nat, w: nat, h: nat)
    requires row < h && col < w
    ensures row * w + col < w * h
  {
    RowsBelow(row, w, h);
  }

  lemma BlitIsRow(d: Draw, row: nat, b1: seq<Pixel>, b2: seq<Pixel>)
    requires d.Blit? && d.w * d.h <= |d.buf| && row < d.h && d.x < W && d.y + row < H && |b1| == |b2| == SIZE
    requires row * d.w + Min(d.w, W - d.x) <= |d.buf|
    requires forall i :: 0 <= i < SIZE ==>
               var start := (d.y + row) * W + d.x;
               b2[i] == if start <= i < start + Min(d.w, W - d.x) then d.buf[row * d.w + (i - start)] else b1[i]
    ensures PaintedRow(d, d.y + row, b1, b2)
  {
    forall i | 0 <= i < SIZE && i / W == d.y + row ensures b2[i] == PaintAt(d, i, b1[i]) {
      RowSpan(i, d.x, d.y + row, d.w);
    }
  }

  /** All rows of a masked write, stopping at the bottom of the screen. */
  method WriteRows(a: array<Pixel>, x: nat, y: nat, w: nat, h: nat, buf: seq<Pixel>, mask: seq<bv8>)
    requires a.Length == SIZE && x < U32 && w <= U32
    modifies a
    ensures Painted(Masked(x, y, w, h, buf, mask), old(a[..]), a[..])
  {
    ghost var b0, d := a[..], Masked(x, y, w, h, buf, mask);
    NoRows(d, b0);
    var row := 0;
    while row < h && y + row < H
      invariant row <= h && Painted(FirstRows(d, row), b0, a[..])
    {
      ghost var b1 := a[..];
      WriteRow(a, x, y, row, w, h, buf, mask);
      NextRow(d, row, b0, b1, a[..]);
      row := row + 1;
    }
    EnoughRows(d, row, b0, a[..]);
  }

  /** All rows of a blit, each clipped at the right edge. */
  method BlitRows(a: array<Pixel>, x: nat, y: nat, w: nat, h: nat, buf: seq<Pixel>)
    requires a.Length == SIZE && w > 0 && w * h <= |buf|
    modifies a
    ensures Painted(Blit(x, y, w, h, buf), old(a[..]), a[..])
  {
    ghost var b0, d := a[..], Blit(x, y, w, h, buf);
    NoRows(d, b0);
    var row := 0;
    while row < h && y + row < H
      invariant row <= h && Painted(FirstRows(d, row), b0, a[..])
    {
      ghost var b1 := a[..];
      BlitRow(a, x, y, row, w, h, buf);
      NextRow(d, row, b0, b1, a[..]);
      row := row + 1;
    }
    EnoughRows(d, row, b0, a[..]);
  }

  method BlitRow(a: array<Pixel>, x: nat, y: nat, row: nat, w: nat, h: nat, buf: seq<Pixel>)
    requires a.Length == SIZE && row < h && y + row < H && w > 0 && w * h <= |buf|
    modifies a
    ensures PaintedRow(Blit(x, y, w, h, buf), y + row, old(a[..]), a[..])
  {
    if x < W {
      var n := Min(w, W - x);
      InBitmap(row, n - 1, w, h);
      CopySpan(a, (y + row) * W + x, n, buf, row * w);
      BlitIsRow(Blit(x, y, w, h, buf), row, old(a[..]), a[..]);
    }
  }

  /** All rows of the cursor that are on the screen. */
  method CursorRows(a: array<Pixel>, x: int, y: int, w: nat, h: nat, bitmap: seq<bv8>)
    requires a.Length == SIZE && BitmapShown(x, y, w, h, bitmap)
    modifies a
    ensures Painted(Cursor(x, y, w, h, bitmap), old(a[..]), a[..])
  {
    ghost var b0, d := a[..], Cursor(x, y, w, h, bitmap);
    NoRows(d, b0);
    for row := 0 to h
      invariant Painted(FirstRows(d, row), b0, a[..])
    {
      ghost var b1 := a[..];
      if 0 <= y + row < H {
        CursorRow(a, x, y, row, w, h, bitmap);
      }
      NextRow(d, row, b0, b1, a[..]);
    }
    EnoughRows(d, h, b0, a[..]);
  }

  /** Rows y0 to y1 of a rectangle copied from one buffer to the other. */
  method CopyRect(a: array<Pixel>, src: array<Pixel>, b: Rect)
    requires a.Length == SIZE && src.Length == SIZE && a != src && Clamped(b) && b.x0 < b.x1 && b.y0 < b.y1
    modifies a
    ensures forall i :: 0 <= i < SIZE ==> a[i] == if Inside(i, b) then src[i] else old(a[i])
  {
    for y := b.y0 to b.y1
      invariant forall i :: 0 <= i < SIZE ==> a[i] == if Inside(i, b) && i / W < y then src[i] else old(a[i])
    {
      CopyRow(a, src, y, b.x0, b.x1);
    }
  }

  method CopyRow(a: array<Pixel>, src: array<Pixel>, y: nat, x0: nat, x1: nat)
    requires a.Length == SIZE && src.Length == SIZE && a != src && y < H && x0 < x1 <= W
    modifies a
    ensures forall i :: 0 <= i < SIZE ==>
              a[i] == if i / W == y && x0 <= i % W < x1 then src[i] else old(a[i])
  {
    CopySpan(a, y * W + x0, x1 - x0, src[..], y * W + x0);
  }

  /** blit_rect copies whole rows, so a row that is drawn must not wrap past the screen's edge. */
  predicate BlitInRow(x: nat, y: nat, w: nat, h: nat, buf: seq<Pixel>) {
    x < W && y < H && w > 0 && h > 0 && w * h <= |buf| ==> x + w < U32
  }

  /** What the source demands of its callers. */
  ghost predicate Fits(d: Draw) {
    match d
    case Masked(x, _, w, _, _, _) => x < U32 && w <= U32
    case Blit(x, y, w, h, buf) => BlitInRow(x, y, w, h, buf)
    case Cursor(x, y, w, h, bitmap) => Max(x, 0) + w < U32 && Max(y, 0) + h < U32 && BitmapShown(x, y, w, h, bitmap)
    case _ => true
  }

  /** The operation marks everything it may draw. */
  predicate Covered(d: Draw) {
    match d
    case Masked(x, y, w, h, _, _) => Coverable(x, y, w, h)
    case Blit(x, y, _, h, _) => x >= W || y >= H || RowsMarked(y, h)
    case _ => true
  }

  /** The picture after a sequence of operations, pixel by pixel. */
  function PaintAll(ds: seq<Draw>, i: int, p: Pixel): Pixel {
    if ds == [] then p else PaintAt(ds[|ds| - 1], i, PaintAll(ds[..|ds| - 1], i, p))
  }

  lemma PaintNext(ds: seq<Draw>, k: nat, i: int, p: Pixel)
    requires k < |ds|
    ensures PaintAll(ds[..k + 1], i, p) == PaintAt(ds[k], i, PaintAll(ds[..k], i, p))
  {
    assert ds[..k + 1][..k] == ds[..k];
  }

  ghost predicate Contained(d: Draw, r: Rect) { Touched(d) <= Pixels(r) }

  lemma BlitInside(d: Draw, b: Rect, i: nat)
    requires d.Blit? && BlitInRow(d.x, d.y, d.w, d.h, d.buf) && Covered(d) && i < SIZE && Clamped(b) && Touches(d, i)
    ensures Inside(i, Grow(b, d.x, d.y, d.w, d.h))
  {
  }

  /**
    A cursor with its corner at (x, y) over the pixel in the given column and row of the screen:
    byte 1 is opaque black, 2 is opaque white, anything else lets the pixel show.
  */
  function CursorOver(x: int, y: int, w: nat, h: nat, bitmap: seq<bv8>, px: int, py: int, p: Pixel): Pixel {
    var k := (py - y) * w + (px - x);
    if x <= px < x + w && y <= py < y + h && 0 <= k < |bitmap| then
      (if bitmap[k] == 1 then 0xFF000000 else if bitmap[k] == 2 then 0xFFFFFFFF else p)
    else p
  }

  lemma CursorColours(x: int, y: int, w: nat, h: nat, bitmap: seq<bv8>, i: nat, p: Pixel)
    ensures PaintAt(Cursor(x, y, w, h, bitmap), i, p) == CursorOver(x, y, w, h, bitmap, i % 1024, i / 1024, p)
  {
  }

  class Screen {
    var front: array<Pixel>
    var back: array<Pixel>
    var bounds: Rect
    var dirty: bool
    var version: nat
    var batch: bool
    /** Pixels drawn but not marked: in batch mode, or by a call whose coordinates overflow. */
    ghost var owed: set<int>

    ghost predicate Valid()
      reads this, front, back
    {
      && front != back && front.Length == SIZE && back.Length == SIZE
      && Clamped(bounds) && (!dirty ==> bounds == NoBounds())
      && Coherent(front[..], back[..], dirty, bounds, owed)
    }

    constructor ()
      ensures Valid() && fresh(front) && fresh(back) && !dirty && !batch && owed == {}
      ensures forall i :: 0 <= i < SIZE ==> front[i] == back[i] == 0xFF000000
    {
      front := new Pixel[SIZE](_ => BLACK);
      back := new Pixel[SIZE](_ => BLACK);
      bounds, dirty, version, batch, owed := NoBounds(), false, 0, false, {};
    }

    method MarkDirty(x: nat, y: nat, width: nat, height: nat)
      requires Valid()
      modifies `bounds, `dirty, `owed
      ensures Valid() && dirty && bounds == Grow(old(bounds), x, y, width, height)
      ensures owed == set i | i in old(owed) && !Inside(i, bounds)
    {
      MarkKeeps(front[..], back[..], dirty, bounds, owed, x, y, width, height);
      bounds := Grow(bounds, x, y, width, height);
      dirty := true;
      owed := set i | i in owed && !Inside(i, bounds);
    }

    method MarkAllDirty()
      requires front != back && front.Length == SIZE && back.Length == SIZE
      modifies `bounds, `dirty, `owed
      ensures Valid() && dirty && bounds == Rect(0, 0, W, H) && owed == {}
    {
      bounds, dirty, owed := Rect(0, 0, W, H), true, {};
    }

    /** mark_dirty after a drawing: what the mark does not contain stays owed. */
    method MarkDrawn(x: nat, y: nat, width: nat, height: nat, ghost d: Draw, ghost b0: seq<Pixel>)
      requires front != back && front.Length == SIZE && back.Length == SIZE && Clamped(bounds)
      requires !dirty ==> bounds == NoBounds()
      requires Coherent(front[..], b0, dirty, bounds, owed) && Painted(d, b0, back[..])
      modifies `bounds, `dirty, `owed
      ensures Valid() && dirty && bounds == Grow(old(bounds), x, y, width, height)
      ensures owed == set i | i in old(owed) + Touched(d) && !Inside(i, bounds)
    {
      PaintedOwed(d, front[..], b0, back[..], dirty, bounds, owed);
      owed := owed + Touched(d);
      MarkDirty(x, y, width, height);
    }

    /** The same where the marked rectangle contains the drawing. */
    method MarkContained(x: nat, y: nat, width: nat, height: nat, ghost d: Draw, ghost b0: seq<Pixel>)
      requires front != back && front.Length == SIZE && back.Length == SIZE && Clamped(bounds)
      requires !dirty ==> bounds == NoBounds()
      requires Coherent(front[..], b0, dirty, bounds, owed) && Painted(d, b0, back[..])
      requires x + width < U32 && y + height < U32
      requires forall i :: 0 <= i < SIZE && Touches(d, i) ==> Inside(i, Rect(x, y, x + width, y + height))
      modifies `bounds, `dirty, `owed
      ensures Valid() && dirty && bounds == Grow(old(bounds), x, y, width, height) && owed <= old(owed)
    {
      MarkPays(d, bounds, owed, x, y, width, height);
      MarkDrawn(x, y, width, height, d, b0);
    }

    method SetPixel(x: nat, y: nat, p: Pixel)
      requires Valid()
      modifies `bounds, `dirty, `owed, back
      ensures Valid() && Painted(Point(x, y, p), old(back[..]), back[..])
      ensures !batch ==> owed <= old(owed)
      ensures batch ==> owed == old(owed) + Touched(Point(x, y, p))
    {
      ghost var b0 := back[..];
      PointPainted(x, y, p, b0);
      if x < W && y < H {
        back[y * W + x] := p;
        assert back[..] == b0[y * W + x := p];
        if !batch {
          MarkContained(x, y, 1, 1, Point(x, y, p), b0);
        }
      }
      if batch {
        PaintedOwed(Point(x, y, p), front[..], b0, back[..], dirty, bounds, owed);
        owed := owed + Touched(Point(x, y, p));
      }
    }

    method PutPixel(x: nat, y: nat, p: Pixel)
      requires Valid()
      modifies `bounds, `dirty, `owed, back
      ensures Valid() && Painted(Point(x, y, p), old(back[..]), back[..]) && owed <= old(owed)
    {
      ghost var b0 := back[..];
      PointPainted(x, y, p, b0);
      if x >= W || y >= H {
        return;
      }
      back[y * W + x] := p;
      assert back[..] == b0[y * W + x := p];
      MarkContained(x, y, 1, 1, Point(x, y, p), b0);
    }

    method ClearBack(p: Pixel)
      requires Valid()
      modifies `bounds, `dirty, `owed, back
      ensures Valid() && Painted(Clear(p), old(back[..]), back[..]) && owed == {}
    {
      var pairs := SIZE / 2;
      for k := 0 to pairs
        invariant forall i :: 0 <= i < 2 * k ==> back[i] == p
      {
        back[2 * k] := p;
        back[2 * k + 1] := p;
      }
      MarkAllDirty();
    }

    method FillHline(x: nat, y: nat, width: nat, p: Pixel)
      requires Valid()
      modifies `bounds, `dirty, `owed, back
      ensures Valid() && Painted(Line(x, y, width, p), old(back[..]), back[..]) && owed <= old(owed)
    {
      ghost var b0 := back[..];
      if y >= H || x >= W || width == 0 {
        return;
      }
      var w := Min(width, W - x);
      FillSpan(back, y * W + x, w, p);
      LinePainted(x, y, width, p, b0, back[..]);
      MarkContained(x, y, w, 1, Line(x, y, width, p), b0);
    }

    method FillRect(x: nat, y: nat, width: nat, height: nat, p: Pixel)
      requires Valid()
      modifies `bounds, `dirty, `owed, back
      ensures Valid() && Painted(Fill(x, y, width, height, p), old(back[..]), back[..]) && owed <= old(owed)
    {
      ghost var b0, d := back[..], Fill(x, y, width, height, p);
      if y >= H || x >= W || width == 0 || height == 0 {
        return;
      }
      var h := Min(height, H - y);
      NoRows(d, b0);
      for row := 0 to h
        invariant Valid() && owed <= old(owed) && Painted(FirstRows(d, row), b0, back[..])
      {
        ghost var b1 := back[..];
        FillHline(x, y + row, width, p);
        LineIsRow(d, row, b1, back[..]);
        NextRow(d, row, b0, b1, back[..]);
      }
      EnoughRows(d, h, b0, back[..]);
    }

    /** Masked write; columns wrap at 32 bits, and so does the mark, which may then miss what was drawn. */
    method WriteRect(x: nat, y: nat, w: nat, h: nat, buf: seq<Pixel>, mask: seq<bv8>)
      requires Valid() && x < U32 && w <= U32
      modifies `bounds, `dirty, `owed, back
      ensures Valid() && Painted(Masked(x, y, w, h, buf, mask), old(back[..]), back[..])
      ensures dirty && bounds == Grow(old(bounds), x, y, w, h)
      ensures owed == set i | i in old(owed) + Touched(Masked(x, y, w, h, buf, mask)) && !Inside(i, bounds)
      ensures Coverable(x, y, w, h) ==> owed <= old(owed)
    {
      ghost var b0, d := back[..], Masked(x, y, w, h, buf, mask);
      WriteRows(back, x, y, w, h, buf, mask);
      if Coverable(x, y, w, h) {
        forall i | i in Touched(d) ensures Inside(i, Grow(bounds, x, y, w, h)) {
          CoverableInside(d, bounds, i);
        }
      }
      MarkDrawn(x, y, w, h, d, b0);
    }

    /** Row-wise copy; the mark's rows may wrap at 32 bits. */
    method BlitRect(x: nat, y: nat, w: nat, h: nat, buf: seq<Pixel>)
      requires Valid() && BlitInRow(x, y, w, h, buf)
      modifies `bounds, `dirty, `owed, back
      ensures Valid() && Painted(Blit(x, y, w, h, buf), old(back[..]), back[..])
      ensures Covered(Blit(x, y, w, h, buf)) ==> owed <= old(owed)
    {
      if w == 0 || h == 0 || |buf| < w * h {
        return;
      }
      ghost var b0, d := back[..], Blit(x, y, w, h, buf);
      BlitRows(back, x, y, w, h, buf);
      if Covered(d) {
        forall i | i in Touched(d) ensures Inside(i, Grow(bounds, x, y, w, h)) {
          BlitInside(d, bounds, i);
        }
      }
      MarkDrawn(x, y, w, h, d, b0);
    }

    /** The cursor may hang over any edge of the screen. */
    method DrawCursorBitmap(x: int, y: int, w: nat, h: nat, bitmap: seq<bv8>)
      requires Valid() && BitmapShown(x, y, w, h, bitmap)
      requires Max(x, 0) + w < U32 && Max(y, 0) + h < U32
      modifies `bounds, `dirty, `owed, back
      ensures Valid() && Painted(Cursor(x, y, w, h, bitmap), old(back[..]), back[..]) && owed <= old(owed)
      ensures forall i :: 0 <= i < SIZE ==>
                back[i] == CursorOver(x, y, w, h, bitmap, i % 1024, i / 1024, old(back[i]))
    {
      ghost var b0 := back[..];
      CursorRows(back, x, y, w, h, bitmap);
      forall i | 0 <= i < SIZE ensures back[i] == CursorOver(x, y, w, h, bitmap, i % 1024, i / 1024, b0[i]) {
        CursorColours(x, y, w, h, bitmap, i, b0[i]);
      }
      MarkContained(Max(x, 0), Max(y, 0), w, h, Cursor(x, y, w, h, bitmap), b0);
    }

    /** Both buffers cleared at once. */
    method ClearDisplay()
      requires Valid()
      modifies `bounds, `dirty, `owed, front, back
      ensures Valid() && front[..] == back[..] && owed == {} && back[0] == 0xFF000000
      ensures forall i :: 0 < i < SIZE ==> back[i] == 0
    {
      FillSpan(front, 0, SIZE, 0);
      front[0] := BLACK;
      FillSpan(back, 0, SIZE, 0);
      back[0] := BLACK;
      MarkAllDirty();
    }

    method BeginPixelBatch()
      requires Valid()
      modifies `batch
      ensures Valid() && batch
    {
      batch := true;
    }

    method EndPixelBatch()
      requires Valid()
      modifies `batch
      ensures Valid() && !batch
    {
      batch := false;
    }

    /**
      Copies the dirty rectangle only, yet the front buffer ends up equal to the back buffer
      everywhere except where a batch still owes a mark.
    */
    method Flush()
      requires Valid()
      modifies `bounds, `dirty, `version, front
      ensures Valid() && !dirty && bounds == NoBounds()
      ensures forall i :: 0 <= i < SIZE && i !in owed ==> front[i] == back[i]
      ensures owed == {} ==> front[..] == back[..]
      ensures version == if old(dirty && bounds.x0 < bounds.x1 && bounds.y0 < bounds.y1)
                         then (old(version) + 1) % U32 else old(version)
    {
      if !dirty {
        return;
      }
      if bounds.x0 < bounds.x1 && bounds.y0 < bounds.y1 {
        CopyRect(front, back, bounds);
        version := (version + 1) % U32;
      }
      bounds, dirty := NoBounds(), false;
    }

    /** Any drawing operation outside batch mode. */
    method Perform(d: Draw)
      requires Valid() && Fits(d) && !batch
      modifies `bounds, `dirty, `owed, back
      ensures Valid() && Painted(d, old(back[..]), back[..])
      ensures Covered(d) ==> owed <= old(owed)
    {
      match d
      case Point(x, y, p) => SetPixel(x, y, p);
      case Clear(p) => ClearBack(p);
      case Line(x, y, width, p) => FillHline(x, y, width, p);
      case Fill(x, y, width, height, p) => FillRect(x, y, width, height, p);
      case Masked(x, y, w, h, buf, mask) => WriteRect(x, y, w, h, buf, mask);
      case Blit(x, y, w, h, buf) => BlitRect(x, y, w, h, buf);
      case Cursor(x, y, w, h, bitmap) => DrawCursorBitmap(x, y, w, h, bitmap);
    }

    /**
      Whatever is drawn in a frame, the partial flush shows exactly that, as a full copy would,
      except for pixels that stay owed; none do if every operation's mark covers its drawing.
    */
    method Frame(ds: seq<Draw>)
      requires Valid() && !batch && owed == {} && forall k :: 0 <= k < |ds| ==> Fits(ds[k])
      modifies this, front, back
      ensures Valid() && front == old(front) && back == old(back) && !dirty
      ensures forall i :: 0 <= i < SIZE ==> back[i] == PaintAll(ds, i, old(back[i]))
      ensures forall i :: 0 <= i < SIZE && i !in owed ==> front[i] == back[i]
      ensures (forall k :: 0 <= k < |ds| ==> Covered(ds[k])) ==> owed == {} && front[..] == back[..]
    {
      for k := 0 to |ds|
        invariant Valid() && !batch && front == old(front) && back == old(back)
        invariant (forall j :: 0 <= j < k ==> Covered(ds[j])) ==> owed == {}
        invariant forall i :: 0 <= i < SIZE ==> back[i] == PaintAll(ds[..k], i, old(back[i]))
      {
        ghost var b := back[..];
        Perform(ds[k]);
        forall i | 0 <= i < SIZE ensures back[i] == PaintAll(ds[..k + 1], i, old(back[i])) {
          PaintNext(ds, k, i, old(back[i]));
          assert b[i] == PaintAll(ds[..k], i, old(back[i]));
        }
      }
      assert ds[..|ds|] == ds;
      Flush();
    }

    /** A batch of pixels is paid for by one mark of a rectangle that contains the visible ones. */
    method Batch(points: seq<Draw>, x: nat, y: nat, width: nat, height: nat)
      requires Valid() && x + width < U32 && y + height < U32
      requires forall k :: 0 <= k < |points| ==> points[k].Point? && Contained(points[k], Rect(x, y, x + width, y + height))
      modifies this, back
      ensures Valid() && front == old(front) && back == old(back) && !batch && owed <= old(owed)
      ensures forall i :: 0 <= i < SIZE ==> back[i] == PaintAll(points, i, old(back[i]))
    {
      BeginPixelBatch();
      for k := 0 to |points|
        invariant Valid() && batch && front == old(front) && back == old(back)
        invariant owed <= old(owed) + Pixels(Rect(x, y, x + width, y + height))
        invariant forall i :: 0 <= i < SIZE ==> back[i] == PaintAll(points[..k], i, old(back[i]))
      {
        ghost var b := back[..];
        SetPixel(points[k].x, points[k].y, points[k].p);
        forall i | 0 <= i < SIZE ensures back[i] == PaintAll(points[..k + 1], i, old(back[i])) {
          PaintNext(points, k, i, old(back[i]));
          assert b[i] == PaintAll(points[..k], i, old(back[i]));
        }
      }
      assert points[..|points|] == points;
      EndPixelBatch();
      MarkPays(Fill(x, y, width, height, BLACK), bounds, old(owed), x, y, width, height);
      MarkDirty(x, y, width, height);
    }
  }

  /** A write with a full mask and no pixel of the screen's colour. */
  ghost predicate Shows(d: Draw, p: Pixel) {
    && d.Masked? && d.x < U32 && d.w <= U32 && |d.buf| == |d.mask| == d.w * d.h
    && (forall k :: 0 <= k < |d.buf| ==> d.buf[k] != p && d.mask[k] != 0)
  }

  lemma ShowsAt(d: Draw, p: Pixel, i: nat)
    requires Shows(d, p) && Touches(d, i)
    ensures PaintAt(d, i, p) != p
  {
    InBitmap(i / W - d.y, ColOf(d, i), d.w, d.h);
  }

  /**
    write_rect with a full mask on a clean one-coloured screen leaves the buffers coherent if and
    only if its coordinates do not overflow, or overflow where nothing is drawn.
  */
  lemma WriteExact(d: Draw, p: Pixel, front: seq<Pixel>, back: seq<Pixel>)
    requires Shows(d, p) && Painted(d, front, back) && forall i :: 0 <= i < SIZE ==> front[i] == p
    ensures Coherent(front, back, true, Grow(NoBounds(), d.x, d.y, d.w, d.h), {}) <==> Coverable(d.x, d.y, d.w, d.h)
  {
    WriteCovers(d);
    if !Coverable(d.x, d.y, d.w, d.h) {
      var i := Unmarked(d);
      ShowsAt(d, p, i);
    }
  }

  /** The smallest loss: two pixels written at the last 32-bit column paint column 0, and the flush copies nothing. */
  lemma WriteLoses(p: Pixel)
    ensures
      var d := Masked(0xFFFF_FFFF, 0, 2, 1, [p, p], [1, 1]);
      Touches(d, 0) && PaintAt(d, 0, BLACK) == p && Grow(NoBounds(), d.x, d.y, d.w, d.h) == Rect(W, 0, 1, 1)
  {
  }
}
