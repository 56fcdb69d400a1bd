/**
 * The before/after compare widget's pointer handler (`setX` in app.js): the pointer's
 * offset from the widget's left edge is clamped to the widget's width and turned into a
 * reveal percentage; the "after" layer is clipped by the complement and the handle is
 * placed at the percentage. Geometry is over the reals.
 */
module Compare {

  function Min(a: real, b: real): real { if a <= b then a else b }
  function Max(a: real, b: real): real { if a >= b then a else b }

  /** `Math.max(0, Math.min(px - rect.left, rect.width))`. */
  function Clamp(px: real, left: real, width: real): (x: real)
    ensures width >= 0.0 ==> 0.0 <= x <= width
    ensures 0.0 <= px - left <= width ==> x == px - left
  {
    Max(0.0, Min(px - left, width))
  }

  /**
   * What one pointer move writes: the right inset of the clip on the "after" layer and the
   * handle's left position, both in percent. A zero-width box divides zero by zero, which
   * JavaScript turns into NaN; that is `NotANumber` here.
   */
  datatype Reveal = Reveal(clipRight: real, handleLeft: real) | NotANumber

  function SetX(px: real, left: real, width: real): (r: Reveal)
    ensures r.NotANumber? <==> width == 0.0
    ensures r.Reveal? ==> r.clipRight + r.handleLeft == 100.0
  {
    var x := Clamp(px, left, width);
    if width == 0.0 then NotANumber
    else
      var pct := x / width * 100.0;
      Reveal(100.0 - pct, pct)
  }

  /** On a box of positive width the handle always lies between 0% and 100%. */
  lemma RevealInBounds(px: real, left: real, width: real)
    requires width > 0.0
    ensures 0.0 <= SetX(px, left, width).handleLeft <= 100.0
    ensures 0.0 <= SetX(px, left, width).clipRight <= 100.0
  {
    var x := Clamp(px, left, width);
    FractionAtMostOne(x, width);
  }

  lemma FractionAtMostOne(x: real, w: real)
    requires 0.0 <= x <= w && w > 0.0
    ensures 0.0 <= x / w <= 1.0
  {
    var f := x / w;
    assert f * w == x;
  }

  /** At or beyond the left edge nothing of the "after" layer is revealed. */
  lemma LeftEdgeRevealsNothing(px: real, left: real, width: real)
    requires width > 0.0 && px <= left
    ensures SetX(px, left, width) == Reveal(100.0, 0.0)
  {
  }

  /** At or beyond the right edge all of it is revealed. */
  lemma RightEdgeRevealsAll(px: real, left: real, width: real)
    requires width > 0.0 && px >= left + width
    ensures SetX(px, left, width) == Reveal(0.0, 100.0)
  {
    assert width / width == 1.0;
  }

  /** Inside the box the handle follows the pointer proportionally. */
  lemma InsideFollowsPointer(px: real, left: real, width: real)
    requires width > 0.0 && left <= px <= left + width
    ensures SetX(px, left, width).handleLeft == (px - left) / width * 100.0
  {
  }

  /** Moving the pointer right never moves the handle left. */
  lemma RevealMonotone(px1: real, px2: real, left: real, width: real)
    requires width > 0.0 && px1 <= px2
    ensures SetX(px1, left, width).handleLeft <= SetX(px2, left, width).handleLeft
  {
    var x1, x2 := Clamp(px1, left, width), Clamp(px2, left, width);
    assert x1 <= x2;
    assert x1 / width <= x2 / width by {
      assert x2 / width - x1 / width == (x2 - x1) / width;
    }
  }
}
