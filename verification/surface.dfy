/** Rectangular windows onto the framebuffer, with their own coordinates; nothing drawn leaves the window. */
module Surfaces {
  import opened Options
  import opened Geometry
  import opened Framebuffers

  /** No pixel outside `r` changed. */
  ghost predicate OnlyInside(before: Buffer, after: Buffer, r: Rect) {
    forall px, py :: 0 <= px < WIDTH && 0 <= py < HEIGHT && !r.Contains(px, py) ==>
      (Black(after, px, py) <==> Black(before, px, py))
  }

  /** The pixels of the surface `rect` whose local position is in `local` are coloured by `black`; no other changed. */
  ghost predicate PaintedLocally(before: Buffer, after: Buffer, rect: Rect, local: Rect, black: (int, int) -> bool) {
    forall px, py :: 0 <= px < WIDTH && 0 <= py < HEIGHT ==>
      (Black(after, px, py) <==>
       if rect.Contains(px, py) && local.Contains(px - rect.x, py - rect.y) then black(px - rect.x, py - rect.y)
       else Black(before, px, py))
  }

  predicate OnScreen(r: Rect) {
    r.IsEmpty() || (r.x + r.w <= WIDTH && r.y + r.h <= HEIGHT)
  }

  /** The part of the screen that is `local` on the surface at `rect`. */
  function OnSurface(rect: Rect, local: Rect): Rect {
    local.Offset(rect.x, rect.y).Intersect(rect)
  }

  /** 16-bit addition that wraps. */
  function Add16(a: U16, b: U16): U16 {
    (a + b) % (U16_MAX + 1)
  }

  /** A character drawn with its left edge at local column `x`. */
  datatype Cell = Cell(x: U16, ch: char)

  /** The cells of `text` from `x` on, up to the first that does not fit in `room`. */
  function CellsOf(text: seq<char>, x: U16, width: U16, room: U16): seq<Cell> {
    if text == [] || Add16(x, width) > room then []
    else [Cell(x, text[0])] + CellsOf(text[1..], Add16(x, width), width, room)
  }

  lemma StepsAdd(x: nat, width: nat, k: nat)
    ensures ((x + width) % 65536 + k * width) % 65536 == (x + (k + 1) * width) % 65536
  {
    assert (k + 1) * width == k * width + width;
    var y, z := (x + width) % 65536, (x + width) / 65536;
    assert x + (k + 1) * width == y + k * width + 65536 * z;
  }

  lemma {:induction false} CellAt(text: seq<char>, x: U16, width: U16, room: U16, k: nat)
    requires k < |CellsOf(text, x, width, room)|
    ensures k < |text| && CellsOf(text, x, width, room)[k] == Cell((x + k * width) % 65536, text[k])
    ensures ((x + k * width) % 65536 + width) % 65536 <= room
    decreases |text|
  {
    if k > 0 {
      CellAt(text[1..], Add16(x, width), width, room, k - 1);
      StepsAdd(x, width, k - 1);
    }
  }

  lemma {:induction false} CellsStop(text: seq<char>, x: U16, width: U16, room: U16)
    ensures var n := |CellsOf(text, x, width, room)|;
            n <= |text| && (n < |text| ==> ((x + n * width) % 65536 + width) % 65536 > room)
    decreases |text|
  {
    var n := |CellsOf(text, x, width, room)|;
    if n > 0 {
      CellsStop(text[1..], Add16(x, width), width, room);
      StepsAdd(x, width, n - 1);
    }
  }

  /**
   The cells are those of the first characters, each one font width right of the one before, wrapping
   as 16-bit numbers do; all fit in the room, and the next one, if there is one, would not.
   */
  lemma CellsAdvance(text: seq<char>, x: U16, width: U16, room: U16)
    ensures var cells := CellsOf(text, x, width, room);
            && |cells| <= |text|
            && (forall k :: 0 <= k < |cells| ==>
                  cells[k] == Cell((x + k * width) % 65536, text[k]) && (cells[k].x + width) % 65536 <= room)
            && (|cells| < |text| ==> ((x + |cells| * width) % 65536 + width) % 65536 > room)
  {
    CellsStop(text, x, width, room);
    forall k | 0 <= k < |CellsOf(text, x, width, room)|
      ensures CellsOf(text, x, width, room)[k] == Cell((x + k * width) % 65536, text[k])
      ensures ((x + k * width) % 65536 + width) % 65536 <= room
    {
      CellAt(text, x, width, room, k);
    }
  }

  /** The colour of a local pixel that was `base` once `cells` are drawn in row `y`. */
  function Coloured(base: bool, cells: seq<Cell>, y: U16, font: Font, black: bool, px: int, py: int): bool {
    if cells == [] then base
    else
      var c := cells[|cells| - 1];
      if Rect(c.x, y, font.width, font.height).Contains(px, py) then font.ink(c.ch, px - c.x, py - y) == black
      else Coloured(base, cells[..|cells| - 1], y, font, black, px, py)
  }

  ghost predicate TextPainted(before: Buffer, after: Buffer, rect: Rect, cells: seq<Cell>, y: U16, font: Font,
                              black: bool) {
    forall px, py :: 0 <= px < WIDTH && 0 <= py < HEIGHT ==>
      (Black(after, px, py) <==>
       if rect.Contains(px, py)
       then Coloured(Black(before, px, py), cells, y, font, black, px - rect.x, py - rect.y)
       else Black(before, px, py))
  }

  /** Drawing operations one after the other, some on a part of the surface. */
  datatype Script =
    | Done
    | Filling(local: Rect, black: bool, rest: Script)
    | Glyph(x: U16, y: U16, font: Font, ch: char, black: bool, rest: Script)
    | Text(x: U16, y: U16, font: Font, text: seq<char>, black: bool, rest: Script)
    | Within(local: Rect, inner: Script, rest: Script)

  /** Whether screen pixel `px, py` is the surface's and locally in `local`. */
  predicate Reaches(rect: Rect, local: Rect, px: int, py: int) {
    rect.Contains(px, py) && local.Contains(px - rect.x, py - rect.y)
  }

  /** The colour of a screen pixel that was `base` once `script` is drawn on the surface at `rect`. */
  function Shade(script: Script, rect: Rect, px: int, py: int, base: bool): bool {
    match script
    case Done => base
    case Filling(local, black, rest) =>
      Shade(rest, rect, px, py, if Reaches(rect, local, px, py) then black else base)
    case Glyph(x, y, font, ch, black, rest) =>
      var cell := Rect(x, y, font.width, font.height);
      Shade(rest, rect, px, py,
            if Reaches(rect, cell, px, py) then font.ink(ch, px - rect.x - x, py - rect.y - y) == black else base)
    case Text(x, y, font, text, black, rest) =>
      var cells := CellsOf(text, x, font.width, rect.w);
      Shade(rest, rect, px, py,
            if rect.Contains(px, py) then Coloured(base, cells, y, font, black, px - rect.x, py - rect.y) else base)
    case Within(local, inner, rest) =>
      Shade(rest, rect, px, py, Shade(inner, OnSurface(rect, local), px, py, base))
  }

  /** The dirty box once `cells` are drawn in row `y`. */
  function MarkedCells(dirty: Option<Box>, rect: Rect, cells: seq<Cell>, y: U16, font: Font): Option<Box> {
    if cells == [] then dirty
    else
      var c := cells[|cells| - 1];
      Marked(MarkedCells(dirty, rect, cells[..|cells| - 1], y, font),
             OnSurface(rect, Rect(c.x, y, font.width, font.height)))
  }

  /** The dirty box once the first operation of `script` is drawn on the surface at `rect`. */
  function MarkedFirst(script: Script, rect: Rect, dirty: Option<Box>): Option<Box>
    requires !script.Done?
    decreases script, 0
  {
    match script
    case Filling(local, _, _) => Marked(dirty, OnSurface(rect, local))
    case Glyph(x, y, font, _, _, _) => Marked(dirty, OnSurface(rect, Rect(x, y, font.width, font.height)))
    case Text(x, y, font, text, _, _) => MarkedCells(dirty, rect, CellsOf(text, x, font.width, rect.w), y, font)
    case Within(local, inner, _) => MarkedBy(inner, OnSurface(rect, local), dirty)
  }

  /** The same for the whole of it. */
  function MarkedBy(script: Script, rect: Rect, dirty: Option<Box>): Option<Box>
    decreases script, 1
  {
    if script.Done? then dirty else MarkedBy(script.rest, rect, MarkedFirst(script, rect, dirty))
  }

  predicate CellsTouch(rect: Rect, cells: seq<Cell>, y: U16, font: Font, px: int, py: int) {
    cells != [] &&
    var c := cells[|cells| - 1];
    Reaches(rect, Rect(c.x, y, font.width, font.height), px, py)
    || CellsTouch(rect, cells[..|cells| - 1], y, font, px, py)
  }

  /** Whether some operation of `script` draws screen pixel `px, py`, in the colour it had or another. */
  predicate Touches(script: Script, rect: Rect, px: int, py: int) {
    match script
    case Done => false
    case Filling(local, _, rest) => Reaches(rect, local, px, py) || Touches(rest, rect, px, py)
    case Glyph(x, y, font, _, _, rest) =>
      Reaches(rect, Rect(x, y, font.width, font.height), px, py) || Touches(rest, rect, px, py)
    case Text(x, y, font, text, _, rest) =>
      CellsTouch(rect, CellsOf(text, x, font.width, rect.w), y, font, px, py) || Touches(rest, rect, px, py)
    case Within(local, inner, rest) =>
      Touches(inner, OnSurface(rect, local), px, py) || Touches(rest, rect, px, py)
  }

  /** Every pixel of the screen has the colour the script gives it. */
  ghost predicate Shaded(before: Buffer, after: Buffer, script: Script, rect: Rect) {
    forall px, py :: 0 <= px < WIDTH && 0 <= py < HEIGHT ==>
      (Black(after, px, py) <==> Shade(script, rect, px, py, Black(before, px, py)))
  }

  /** The column just past the last of `cells`, or `x` if there are none. */
  function PastLast(cells: seq<Cell>, x: U16, width: U16): U16 {
    if cells == [] then x else Add16(cells[|cells| - 1].x, width)
  }

  lemma PastOneMore(cells: seq<Cell>, c: Cell, x: U16, width: U16)
    ensures PastLast(cells + [c], x, width) == Add16(c.x, width)
  {
  }

  lemma Regroup(a: seq<Cell>, c: Cell, b: seq<Cell>)
    ensures a + ([c] + b) == a + [c] + b
  {
  }

  lemma CellsNext(text: seq<char>, i: nat, x: U16, width: U16, room: U16)
    requires i < |text|
    ensures CellsOf(text[i..], x, width, room) ==
            if Add16(x, width) > room then []
            else [Cell(x, text[i])] + CellsOf(text[i + 1..], Add16(x, width), width, room)
  {
    assert text[i..][1..] == text[i + 1..];
  }

  class Surface {
    const fb: FrameBuffer
    const rect: Rect

    ghost predicate Valid()
      reads this, fb, fb.desired, fb.committed
    {
      fb.Valid() && OnScreen(rect)
    }

    /** A surface over a screen rectangle, clipped to the display. */
    constructor (fb: FrameBuffer, area: Rect)
      requires fb.Valid()
      ensures this.fb == fb && Valid()
      ensures forall px, py :: rect.Contains(px, py) <==> area.Contains(px, py) && SCREEN.Contains(px, py)
    {
      this.fb := fb;
      rect := area.Intersect(SCREEN);
      new;
      IntersectIsIntersection(area, SCREEN);
    }

    constructor OfRect(fb: FrameBuffer, rect: Rect)
      ensures this.fb == fb && this.rect == rect
    {
      this.fb, this.rect := fb, rect;
    }

    /** Local rectangle to screen rectangle, clipped to this surface. */
    function ToScreen(local: Rect): Rect {
      OnSurface(rect, local)
    }

    /** A surface for part of this one: exactly the pixels of `local` that this surface has. */
    method Sub(local: Rect) returns (s: Surface)
      requires Valid()
      ensures s.Valid() && s.fb == fb && Inside(s.rect, rect) && s.rect == ToScreen(local)
      ensures forall px, py :: s.rect.Contains(px, py) <==>
                                 rect.Contains(px, py) && local.Contains(px - rect.x, py - rect.y)
    {
      ToScreenIsLocal(rect, local);
      s := new Surface.OfRect(fb, ToScreen(local));
    }

    method Fill(local: Rect, black: bool)
      requires Valid()
      modifies fb`dirty, fb.desired
      ensures Valid() && Draws(old(fb.Value()), fb.Value())
      ensures PaintedLocally(old(fb.desired[..]), fb.desired[..], rect, local, (_, _) => black)
      ensures fb.dirty == Marked(old(fb.dirty), ToScreen(local))
    {
      var r := ToScreen(local);
      ToScreenIsLocal(rect, local);
      if !r.IsEmpty() {
        fb.FillRect(r.x, r.y, r.w, r.h, black);
      }
    }

    method FillAll(black: bool)
      requires Valid()
      modifies fb`dirty, fb.desired
      ensures Valid() && Draws(old(fb.Value()), fb.Value())
      ensures Painted(old(fb.desired[..]), fb.desired[..], rect, (_, _) => black)
      ensures fb.dirty == Marked(old(fb.dirty), ToScreen(Rect(0, 0, rect.w, rect.h)))
    {
      Fill(Rect(0, 0, rect.w, rect.h), black);
    }

    method DrawGlyph(x: U16, y: U16, font: Font, ch: char, black: bool)
      requires Valid()
      modifies fb`dirty, fb.desired
      ensures Valid() && Draws(old(fb.Value()), fb.Value())
      ensures PaintedLocally(old(fb.desired[..]), fb.desired[..], rect, Rect(x, y, font.width, font.height),
                             (px, py) => font.ink(ch, px - x, py - y) == black)
      ensures fb.dirty == Marked(old(fb.dirty), ToScreen(Rect(x, y, font.width, font.height)))
    {
      CellOnSurface(rect, x, y, font.width, font.height);
      if x >= rect.w || y >= rect.h {
        NothingReached(fb.desired[..], rect, x, y, font, ch, black);
        return;
      }
      DrawVisible(x, y, font, ch, black);
    }

    /** A glyph whose cell begins inside the surface. */
    method DrawVisible(x: U16, y: U16, font: Font, ch: char, black: bool)
      requires Valid() && x < rect.w && y < rect.h
      modifies fb`dirty, fb.desired
      ensures Valid() && Draws(old(fb.Value()), fb.Value())
      ensures PaintedLocally(old(fb.desired[..]), fb.desired[..], rect, Rect(x, y, font.width, font.height),
                             (px, py) => font.ink(ch, px - x, py - y) == black)
      ensures fb.dirty == Marked(old(fb.dirty), Rect(rect.x + x, rect.y + y, font.width, font.height).Intersect(rect))
    {
      fb.DrawGlyphClipped(rect.x + x, rect.y + y, font, ch, black, rect);
      GlyphIsLocal(old(fb.desired[..]), fb.desired[..], rect, x, y, font, ch, black);
    }

    /** Draw `text` from local `x, y`, stopping at the first cell that does not fit in the surface's width. */
    method DrawText(x: U16, y: U16, font: Font, text: seq<char>, black: bool) returns (cx: U16)
      requires Valid()
      modifies fb`dirty, fb.desired
      ensures Valid() && Draws(old(fb.Value()), fb.Value())
      ensures TextPainted(old(fb.desired[..]), fb.desired[..], rect, CellsOf(text, x, font.width, rect.w), y, font,
                          black)
      ensures cx == PastLast(CellsOf(text, x, font.width, rect.w), x, font.width)
      ensures fb.dirty == MarkedCells(old(fb.dirty), rect, CellsOf(text, x, font.width, rect.w), y, font)
    {
      cx := x;
      ghost var cells, start, whole := [], fb.Value(), CellsOf(text, x, font.width, rect.w);
      var i := 0;
      assert text[0..] == text;
      while i < |text|
        invariant 0 <= i <= |text|
        invariant Valid() && Draws(start, fb.Value())
        invariant cells + CellsOf(text[i..], cx, font.width, rect.w) == whole
        invariant cx == PastLast(cells, x, font.width)
        invariant fb.dirty == MarkedCells(start.dirty, rect, cells, y, font)
        invariant TextPainted(start.desired, fb.desired[..], rect, cells, y, font, black)
      {
        CellsNext(text, i, cx, font.width, rect.w);
        if Add16(cx, font.width) > rect.w {
          break;
        }
        DrawCell(Cell(cx, text[i]), y, font, black, start, cells);
        Regroup(cells, Cell(cx, text[i]), CellsOf(text[i + 1..], Add16(cx, font.width), font.width, rect.w));
        PastOneMore(cells, Cell(cx, text[i]), x, font.width);
        cells := cells + [Cell(cx, text[i])];
        cx := Add16(cx, font.width);
        i := i + 1;
      }
      assert cells == whole;
    }

    /** One more cell of a text. */
    method DrawCell(c: Cell, y: U16, font: Font, black: bool, ghost start: Fb, ghost cells: seq<Cell>)
      requires Valid() && Draws(start, fb.Value())
      requires TextPainted(start.desired, fb.desired[..], rect, cells, y, font, black)
      requires fb.dirty == MarkedCells(start.dirty, rect, cells, y, font)
      modifies fb`dirty, fb.desired
      ensures Valid() && Draws(start, fb.Value())
      ensures TextPainted(start.desired, fb.desired[..], rect, cells + [c], y, font, black)
      ensures fb.dirty == MarkedCells(start.dirty, rect, cells + [c], y, font)
    {
      ghost var mid := fb.Value();
      DrawGlyph(c.x, y, font, c.ch, black);
      MarkedOneMore(start.dirty, rect, cells, c, y, font);
      CellPainted(start.desired, mid.desired, fb.desired[..], rect, cells, c, y, font, black);
      DrawsTransitive(start, mid, fb.Value());
    }

    /**
     Any drawing at all, on this surface and on surfaces within it: every pixel gets exactly the
     colour the script gives it, none outside the surface changes, and what was drawn is in the dirty box.
     */
    method Draw(script: Script)
      requires Valid()
      modifies fb`dirty, fb.desired
      ensures Valid() && Draws(old(fb.Value()), fb.Value())
      ensures Shaded(old(fb.desired[..]), fb.desired[..], script, rect)
      ensures fb.dirty == MarkedBy(script, rect, old(fb.dirty))
      ensures OnlyInside(old(fb.desired[..]), fb.desired[..], rect)
      decreases script
    {
      if script.Done? {
        return;
      }
      DrawFirst(script);
      label Between:
      Draw(script.rest);
      ThenShaded(old(fb.desired[..]), old@Between(fb.desired[..]), fb.desired[..], script, rect);
      DrawsTransitive(old(fb.Value()), old@Between(fb.Value()), fb.Value());
    }

    /** The script's first operation. */
    method DrawFirst(script: Script)
      requires Valid() && !script.Done?
      modifies fb`dirty, fb.desired
      ensures Valid() && Draws(old(fb.Value()), fb.Value())
      ensures Shaded(old(fb.desired[..]), fb.desired[..], First(script), rect)
      ensures fb.dirty == MarkedFirst(script, rect, old(fb.dirty))
      ensures OnlyInside(old(fb.desired[..]), fb.desired[..], rect)
      decreases script, 0
    {
      ghost var before := fb.desired[..];
      match script {
        case Filling(local, black, _) =>
          Fill(local, black);
          FillingShaded(before, fb.desired[..], rect, local, black);
        case Glyph(x, y, font, ch, black, _) =>
          DrawGlyph(x, y, font, ch, black);
          GlyphShaded(before, fb.desired[..], rect, x, y, font, ch, black);
        case Text(x, y, font, text, black, _) =>
          var _ := DrawText(x, y, font, text, black);
          TextShaded(before, fb.desired[..], rect, x, y, font, text, black);
        case Within(local, inner, _) =>
          var part := Sub(local);
          part.Draw(inner);
          WithinShaded(before, fb.desired[..], rect, local, inner, part.rect);
      }
    }
  }

  /** A script's first operation alone. */
  function First(script: Script): Script
    requires !script.Done?
  {
    script.(rest := Done)
  }

  lemma FirstThenRest(script: Script, rect: Rect, px: int, py: int, base: bool)
    requires !script.Done?
    ensures Shade(script, rect, px, py, base)
            == Shade(script.rest, rect, px, py, Shade(First(script), rect, px, py, base))
  {
    match script
    case Filling(_, _, _) =>
    case Glyph(_, _, _, _, _, _) =>
    case Text(_, _, _, _, _, _) =>
    case Within(_, _, _) =>
  }

  lemma MarkedOneMore(dirty: Option<Box>, rect: Rect, cells: seq<Cell>, c: Cell, y: U16, font: Font)
    ensures MarkedCells(dirty, rect, cells + [c], y, font)
            == Marked(MarkedCells(dirty, rect, cells, y, font), OnSurface(rect, Rect(c.x, y, font.width, font.height)))
  {
    assert (cells + [c])[..|cells|] == cells;
  }

  lemma ThenShaded(before: Buffer, mid: Buffer, after: Buffer, script: Script, rect: Rect)
    requires !script.Done?
    requires Shaded(before, mid, First(script), rect) && Shaded(mid, after, script.rest, rect)
    ensures Shaded(before, after, script, rect)
  {
    forall px, py | 0 <= px < WIDTH && 0 <= py < HEIGHT
      ensures Black(after, px, py) <==> Shade(script, rect, px, py, Black(before, px, py))
    {
      FirstThenRest(script, rect, px, py, Black(before, px, py));
    }
  }

  lemma FillingShaded(before: Buffer, after: Buffer, rect: Rect, local: Rect, black: bool)
    requires PaintedLocally(before, after, rect, local, (_, _) => black)
    ensures Shaded(before, after, Filling(local, black, Done), rect) && OnlyInside(before, after, rect)
  {
    LocalPaintingContained(before, after, rect, local, (_, _) => black);
  }

  lemma GlyphShaded(before: Buffer, after: Buffer, rect: Rect, x: U16, y: U16, font: Font, ch: char, black: bool)
    requires PaintedLocally(before, after, rect, Rect(x, y, font.width, font.height),
                            (px, py) => font.ink(ch, px - x, py - y) == black)
    ensures Shaded(before, after, Glyph(x, y, font, ch, black, Done), rect) && OnlyInside(before, after, rect)
  {
    LocalPaintingContained(before, after, rect, Rect(x, y, font.width, font.height),
                           (px, py) => font.ink(ch, px - x, py - y) == black);
  }

  lemma TextShaded(before: Buffer, after: Buffer, rect: Rect, x: U16, y: U16, font: Font, text: seq<char>, black: bool)
    requires TextPainted(before, after, rect, CellsOf(text, x, font.width, rect.w), y, font, black)
    ensures Shaded(before, after, Text(x, y, font, text, black, Done), rect) && OnlyInside(before, after, rect)
  {
    TextContained(before, after, rect, CellsOf(text, x, font.width, rect.w), y, font, black);
  }

  lemma WithinShaded(before: Buffer, after: Buffer, rect: Rect, local: Rect, inner: Script, part: Rect)
    requires part == OnSurface(rect, local) && Inside(part, rect)
    requires Shaded(before, after, inner, part) && OnlyInside(before, after, part)
    ensures Shaded(before, after, Within(local, inner, Done), rect) && OnlyInside(before, after, rect)
  {
  }

  lemma ToScreenIsLocal(rect: Rect, local: Rect)
    requires OnScreen(rect)
    ensures var r := OnSurface(rect, local);
            && (forall px, py :: r.Contains(px, py) <==>
                                   rect.Contains(px, py) && local.Contains(px - rect.x, py - rect.y))
            && Inside(r, rect) && OnScreen(r)
            && (r.IsEmpty() ==> forall px, py :: !r.Contains(px, py))
  {
    IntersectIsIntersection(local.Offset(rect.x, rect.y), rect);
    forall px, py | rect.Contains(px, py)
      ensures local.Offset(rect.x, rect.y).Contains(px, py) <==> local.Contains(px - rect.x, py - rect.y)
    {
      assert SCREEN.Contains(px, py);
      OffsetIsTranslation(local, rect.x, rect.y, px, py);
    }
  }

  /** A cell's part of the surface, which is none if it begins beyond the surface. */
  lemma CellOnSurface(rect: Rect, x: U16, y: U16, w: U16, h: U16)
    requires OnScreen(rect)
    ensures if x >= rect.w || y >= rect.h then OnSurface(rect, Rect(x, y, w, h)).IsEmpty()
            else OnSurface(rect, Rect(x, y, w, h)) == Rect(rect.x + x, rect.y + y, w, h).Intersect(rect)
  {
  }

  /** A pixel of the cell at its screen position, inside the surface, is a pixel of the local cell there. */
  lemma CellPixel(rect: Rect, x: U16, y: U16, w: U16, h: U16, px: int, py: int)
    requires OnScreen(rect) && x < rect.w && y < rect.h
    ensures Rect(rect.x + x, rect.y + y, w, h).Intersect(rect).Contains(px, py)
            <==> Reaches(rect, Rect(x, y, w, h), px, py)
  {
    IntersectIsIntersection(Rect(rect.x + x, rect.y + y, w, h), rect);
  }

  /** A glyph painted at its screen position is painted at its local one. */
  lemma GlyphIsLocal(before: Buffer, after: Buffer, rect: Rect, x: U16, y: U16, font: Font, ch: char, black: bool)
    requires OnScreen(rect) && x < rect.w && y < rect.h
    requires Painted(before, after, Rect(rect.x + x, rect.y + y, font.width, font.height).Intersect(rect),
                     (px, py) => font.ink(ch, px - (rect.x + x), py - (rect.y + y)) == black)
    ensures PaintedLocally(before, after, rect, Rect(x, y, font.width, font.height),
                           (px, py) => font.ink(ch, px - x, py - y) == black)
  {
    forall px, py | 0 <= px < WIDTH && 0 <= py < HEIGHT
      ensures Black(after, px, py) <==>
              if Reaches(rect, Rect(x, y, font.width, font.height), px, py)
              then font.ink(ch, px - rect.x - x, py - rect.y - y) == black
              else Black(before, px, py)
    {
      CellPixel(rect, x, y, font.width, font.height, px, py);
      assert px - (rect.x + x) == px - rect.x - x && py - (rect.y + y) == py - rect.y - y;
    }
  }

  /** A cell that begins beyond the surface has no pixel in it. */
  lemma NothingReached(b: Buffer, rect: Rect, x: U16, y: U16, font: Font, ch: char, black: bool)
    requires OnScreen(rect) && (x >= rect.w || y >= rect.h)
    ensures PaintedLocally(b, b, rect, Rect(x, y, font.width, font.height),
                           (px, py) => font.ink(ch, px - x, py - y) == black)
  {
  }

  lemma CellPainted(before: Buffer, mid: Buffer, after: Buffer, rect: Rect, cells: seq<Cell>, c: Cell, y: U16,
                    font: Font, black: bool)
    requires TextPainted(before, mid, rect, cells, y, font, black)
    requires PaintedLocally(mid, after, rect, Rect(c.x, y, font.width, font.height),
                            (px, py) => font.ink(c.ch, px - c.x, py - y) == black)
    ensures TextPainted(before, after, rect, cells + [c], y, font, black)
  {
    assert (cells + [c])[..|cells|] == cells;
  }

  // ----- Containment

  lemma LocalPaintingContained(before: Buffer, after: Buffer, rect: Rect, local: Rect, black: (int, int) -> bool)
    requires PaintedLocally(before, after, rect, local, black)
    ensures OnlyInside(before, after, rect)
  {
  }

  lemma TextContained(before: Buffer, after: Buffer, rect: Rect, cells: seq<Cell>, y: U16, font: Font, black: bool)
    requires TextPainted(before, after, rect, cells, y, font, black)
    ensures OnlyInside(before, after, rect)
  {
  }

  /** No script gives a pixel outside its surface another colour. */
  lemma {:induction false} ScriptContained(script: Script, rect: Rect, px: int, py: int, base: bool)
    requires OnScreen(rect) && !rect.Contains(px, py)
    ensures Shade(script, rect, px, py, base) == base
  {
    if !script.Done? {
      ScriptContained(script.rest, rect, px, py, base);
      if script.Within? {
        ToScreenIsLocal(rect, script.local);
        ScriptContained(script.inner, OnSurface(rect, script.local), px, py, base);
      }
    }
  }

  // ----- What is drawn is dirty

  lemma {:induction false} CellsStayMarked(dirty: Option<Box>, rect: Rect, cells: seq<Cell>, y: U16, font: Font,
                                           bx: nat, row: nat)
    requires InDirty(dirty, bx, row)
    ensures InDirty(MarkedCells(dirty, rect, cells, y, font), bx, row)
  {
    if cells != [] {
      var c := cells[|cells| - 1];
      CellsStayMarked(dirty, rect, cells[..|cells| - 1], y, font, bx, row);
      MarkedCovers(MarkedCells(dirty, rect, cells[..|cells| - 1], y, font),
                   OnSurface(rect, Rect(c.x, y, font.width, font.height)));
    }
  }

  /** What is in the dirty box stays in it. */
  lemma {:induction false} StaysMarked(script: Script, rect: Rect, dirty: Option<Box>, bx: nat, row: nat)
    requires InDirty(dirty, bx, row)
    ensures InDirty(MarkedBy(script, rect, dirty), bx, row)
    decreases script
  {
    if !script.Done? {
      match script {
        case Filling(local, _, _) => MarkedCovers(dirty, OnSurface(rect, local));
        case Glyph(x, y, font, _, _, _) => MarkedCovers(dirty, OnSurface(rect, Rect(x, y, font.width, font.height)));
        case Text(x, y, font, text, _, _) =>
          CellsStayMarked(dirty, rect, CellsOf(text, x, font.width, rect.w), y, font, bx, row);
        case Within(local, inner, _) => StaysMarked(inner, OnSurface(rect, local), dirty, bx, row);
      }
      StaysMarked(script.rest, rect, MarkedFirst(script, rect, dirty), bx, row);
    }
  }

  lemma ReachedIsMarked(dirty: Option<Box>, rect: Rect, local: Rect, px: nat, py: nat)
    requires OnScreen(rect) && Reaches(rect, local, px, py)
    ensures InDirty(Marked(dirty, OnSurface(rect, local)), px / 8, py)
  {
    ToScreenIsLocal(rect, local);
    MarkedCovers(dirty, OnSurface(rect, local));
  }

  lemma {:induction false} TouchedByCells(dirty: Option<Box>, rect: Rect, cells: seq<Cell>, y: U16, font: Font,
                                          px: nat, py: nat)
    requires OnScreen(rect) && CellsTouch(rect, cells, y, font, px, py)
    ensures InDirty(MarkedCells(dirty, rect, cells, y, font), px / 8, py)
  {
    var c, front := cells[|cells| - 1], cells[..|cells| - 1];
    var cell := Rect(c.x, y, font.width, font.height);
    if Reaches(rect, cell, px, py) {
      ReachedIsMarked(MarkedCells(dirty, rect, front, y, font), rect, cell, px, py);
    } else {
      TouchedByCells(dirty, rect, front, y, font, px, py);
      MarkedCovers(MarkedCells(dirty, rect, front, y, font), OnSurface(rect, cell));
    }
  }

  /** The byte of every pixel a script draws is in the dirty box, whatever colour it had. */
  lemma {:induction false} TouchedIsDirty(script: Script, rect: Rect, dirty: Option<Box>, px: nat, py: nat)
    requires OnScreen(rect) && Touches(script, rect, px, py)
    ensures InDirty(MarkedBy(script, rect, dirty), px / 8, py)
    decreases script
  {
    var mid := MarkedFirst(script, rect, dirty);
    if Touches(script.rest, rect, px, py) {
      TouchedIsDirty(script.rest, rect, mid, px, py);
    } else {
      match script {
        case Filling(local, _, _) => ReachedIsMarked(dirty, rect, local, px, py);
        case Glyph(x, y, font, _, _, _) => ReachedIsMarked(dirty, rect, Rect(x, y, font.width, font.height), px, py);
        case Text(x, y, font, text, _, _) =>
          TouchedByCells(dirty, rect, CellsOf(text, x, font.width, rect.w), y, font, px, py);
        case Within(local, inner, _) =>
          ToScreenIsLocal(rect, local);
          TouchedIsDirty(inner, OnSurface(rect, local), dirty, px, py);
      }
      StaysMarked(script.rest, rect, mid, px / 8, py);
    }
  }

  lemma {:induction false} UncolouredKept(base: bool, rect: Rect, cells: seq<Cell>, y: U16, font: Font, black: bool,
                                          px: int, py: int)
    requires rect.Contains(px, py) && !CellsTouch(rect, cells, y, font, px, py)
    ensures Coloured(base, cells, y, font, black, px - rect.x, py - rect.y) == base
  {
    if cells != [] {
      UncolouredKept(base, rect, cells[..|cells| - 1], y, font, black, px, py);
    }
  }

  /** A pixel no operation draws keeps its colour. */
  lemma {:induction false} UntouchedKept(script: Script, rect: Rect, px: int, py: int, base: bool)
    requires !Touches(script, rect, px, py)
    ensures Shade(script, rect, px, py, base) == base
  {
    match script
    case Done =>
    case Filling(_, _, rest) => UntouchedKept(rest, rect, px, py, base);
    case Glyph(_, _, _, _, _, rest) => UntouchedKept(rest, rect, px, py, base);
    case Text(x, y, font, text, black, rest) =>
      if rect.Contains(px, py) {
        UncolouredKept(base, rect, CellsOf(text, x, font.width, rect.w), y, font, black, px, py);
      }
      UntouchedKept(rest, rect, px, py, base);
    case Within(local, inner, rest) =>
      UntouchedKept(inner, OnSurface(rect, local), px, py, base);
      UntouchedKept(rest, rect, px, py, base);
  }
}
