/** Pixel rectangles with 16-bit coordinates that saturate. */
module Geometry {

  const U16_MAX := 65535

  type U16 = n: nat | n <= U16_MAX

  const WIDTH: U16 := 240
  const HEIGHT: U16 := 320

  function Min(a: int, b: int): int {
    if a < b then a else b
  }

  function Max(a: int, b: int): int {
    if a < b then b else a
  }

  function SatAdd(a: U16, b: U16): U16 {
    if a + b > U16_MAX then U16_MAX else a + b
  }

  function SatSub(a: U16, b: U16): U16 {
    if a < b then 0 else a - b
  }

  datatype Rect = Rect(x: U16, y: U16, w: U16, h: U16) {
    function Right(): U16 {
      SatAdd(x, w)
    }

    function Bottom(): U16 {
      SatAdd(y, h)
    }

    predicate IsEmpty() {
      w == 0 || h == 0
    }

    function Intersect(other: Rect): Rect {
      var left := Max(x, other.x);
      var top := Max(y, other.y);
      var right := Min(Right(), other.Right());
      var bottom := Min(Bottom(), other.Bottom());
      Rect(left, top, SatSub(right, left), SatSub(bottom, top))
    }

    function Offset(dx: U16, dy: U16): Rect {
      Rect(SatAdd(x, dx), SatAdd(y, dy), w, h)
    }

    /** The pixels of the rectangle. */
    predicate Contains(px: int, py: int) {
      x <= px < Right() && y <= py < Bottom()
    }
  }

  const SCREEN := Rect(0, 0, WIDTH, HEIGHT)

  ghost predicate Inside(r: Rect, outer: Rect) {
    forall px, py :: r.Contains(px, py) ==> outer.Contains(px, py)
  }

  /** Overlap is set intersection, and is empty exactly when no pixel is shared. */
  lemma IntersectIsIntersection(a: Rect, b: Rect)
    ensures forall px, py :: a.Intersect(b).Contains(px, py) <==> a.Contains(px, py) && b.Contains(px, py)
    ensures a.Intersect(b).IsEmpty() <==> forall px, py :: !(a.Contains(px, py) && b.Contains(px, py))
  {
    var r := a.Intersect(b);
    if !r.IsEmpty() {
      assert a.Contains(r.x, r.y) && b.Contains(r.x, r.y);
    }
  }

  /** Moving a rectangle moves its pixels, even where its far corner saturates. */
  lemma OffsetIsTranslation(r: Rect, dx: U16, dy: U16, px: int, py: int)
    requires px < U16_MAX && py < U16_MAX
    ensures r.Offset(dx, dy).Contains(px, py) <==> r.Contains(px - dx, py - dy)
  {
  }
}
