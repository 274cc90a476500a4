/**
 A tile's visual state as a function of where it sits and where the viewport
 is: the Manhattan distance from the tile's centre to the centre of the
 window, fed through four clamped interpolation curves.
 */
module Tile {
  import opened Interpolation

  const TileWidth: real := 120.0
  const TileHeight: real := 200.0

  /** Where the host toolkit measured the tile: `left` within its row, `top` of its row; both are 0 before the first layout. */
  datatype Placement = Placement(left: real, top: real)

  /** Half the window's width and height. */
  datatype Window = Window(halfWidth: real, halfHeight: real)

  /** The scroll offset (`animValX`, `animValY`). */
  datatype Offset = Offset(x: real, y: real)

  /** The four animated properties of a tile. */
  datatype Visual = Visual(scale: real, opacity: real, borderOpacity: real, textOpacity: real)

  function Abs(x: real): (r: real)
    ensures r >= 0.0
    ensures r == x || r == -x
  {
    if x < 0.0 then -x else x
  }

  /** The horizontal centre of the tile: strictly inside it and equally far from its left and right edges. */
  function CenterX(p: Placement): (r: real)
    ensures p.left < r < p.left + TileWidth
    ensures r - p.left == p.left + TileWidth - r
  {
    p.left + TileWidth / 2.0
  }

  /** The vertical centre of the tile: strictly inside it and equally far from its top and bottom edges. */
  function CenterY(p: Placement): (r: real)
    ensures p.top < r < p.top + TileHeight
    ensures r - p.top == p.top + TileHeight - r
  {
    p.top + TileHeight / 2.0
  }

  /** The Manhattan distance from the tile's centre to the window's centre, shifted by the scroll offset. */
  function Distance(p: Placement, w: Window, o: Offset): (d: real)
    ensures d >= 0.0
    ensures d == 0.0 <==> o.x == CenterX(p) - w.halfWidth && o.y == CenterY(p) - w.halfHeight
  {
    Abs(CenterX(p) - w.halfWidth - o.x) + Abs(CenterY(p) - w.halfHeight - o.y)
  }

  const ScaleCurve := Curve([0.0, 160.0], [1.0, 0.75])
  const OpacityCurve := Curve([0.0, 200.0], [1.0, 0.25])
  const BorderOpacityCurve := Curve([0.0, 150.0], [1.0, 0.0])
  const TextOpacityCurve := Curve([0.0, 60.0, 75.0], [1.0, 1.0, 0.0])

  /** The four curves are well formed and never rise. */
  lemma CurvesFalling()
    ensures Valid(ScaleCurve) && NonIncreasing(ScaleCurve.outputs)
    ensures Valid(OpacityCurve) && NonIncreasing(OpacityCurve.outputs)
    ensures Valid(BorderOpacityCurve) && NonIncreasing(BorderOpacityCurve.outputs)
    ensures Valid(TextOpacityCurve) && NonIncreasing(TextOpacityCurve.outputs)
  {
  }

  /** The visual state at a given distance: each property within its output range, and everything at 1 at or below distance 0. */
  function VisualAt(d: real): (v: Visual)
    ensures 0.75 <= v.scale <= 1.0
    ensures 0.25 <= v.opacity <= 1.0
    ensures 0.0 <= v.borderOpacity <= 1.0
    ensures 0.0 <= v.textOpacity <= 1.0
    ensures d <= 0.0 ==> v == Visual(1.0, 1.0, 1.0, 1.0)
  {
    CurvesFalling();
    Bounded(ScaleCurve, d);
    Bounded(OpacityCurve, d);
    Bounded(BorderOpacityCurve, d);
    Bounded(TextOpacityCurve, d);
    Visual(Interpolate(ScaleCurve, d), Interpolate(OpacityCurve, d),
           Interpolate(BorderOpacityCurve, d), Interpolate(TextOpacityCurve, d))
  }

  /** The visual state `Tile.render` computes for one tile: all four properties are 1 exactly when the tile is centred in the viewport. */
  function TileVisual(p: Placement, w: Window, o: Offset): (v: Visual)
    ensures v == Visual(1.0, 1.0, 1.0, 1.0) <==> o == Offset(CenterX(p) - w.halfWidth, CenterY(p) - w.halfHeight)
  {
    var d := Distance(p, w, o);
    Pinned(d);
    LinearFalloff(d);
    VisualAt(d)
  }

  /** Shifting the tile and the offset by the same amount leaves the distance unchanged: only their difference matters. */
  lemma DistanceRelative(p: Placement, w: Window, o: Offset, a: real, b: real)
    ensures Distance(Placement(p.left + a, p.top + b), w, Offset(o.x + a, o.y + b)) == Distance(p, w, o)
  {
  }

  /** Manhattan distance ignores the sign of each component: mirroring the offset about the tile's centre keeps the distance. */
  lemma DistanceMirror(p: Placement, w: Window, o: Offset)
    ensures Distance(p, w, Offset(2.0 * (CenterX(p) - w.halfWidth) - o.x, o.y)) == Distance(p, w, o)
    ensures Distance(p, w, Offset(o.x, 2.0 * (CenterY(p) - w.halfHeight) - o.y)) == Distance(p, w, o)
  {
  }

  /** Beyond each curve's last input the property stays at its terminal value. */
  lemma Pinned(d: real)
    ensures d >= 160.0 ==> VisualAt(d).scale == 0.75
    ensures d >= 200.0 ==> VisualAt(d).opacity == 0.25
    ensures d >= 150.0 ==> VisualAt(d).borderOpacity == 0.0
    ensures d >= 75.0 ==> VisualAt(d).textOpacity == 0.0
  {
    CurvesFalling();
  }

  /** Up to 60 the text is fully visible; from 60 to 75 it fades linearly to nothing. */
  lemma TextPlateau(d: real)
    ensures d <= 60.0 ==> VisualAt(d).textOpacity == 1.0
    ensures 60.0 <= d <= 75.0 ==> VisualAt(d).textOpacity == (75.0 - d) / 15.0
  {
    CurvesFalling();
    if 0.0 <= d <= 60.0 {
      InSegment(TextOpacityCurve, 0, d);
    } else if 60.0 < d <= 75.0 {
      InSegment(TextOpacityCurve, 1, d);
    }
  }

  /** Distance 70 lies two thirds of the way from 60 to 75, so a third of the text shows. */
  lemma TextAtSeventy()
    ensures VisualAt(70.0).textOpacity == 1.0 / 3.0
  {
    TextPlateau(70.0);
  }

  /** Inside their input ranges scale, opacity and border opacity fall linearly from 1. */
  lemma LinearFalloff(d: real)
    requires 0.0 <= d
    ensures d <= 160.0 ==> VisualAt(d).scale == 1.0 - 0.25 * d / 160.0
    ensures d <= 200.0 ==> VisualAt(d).opacity == 1.0 - 0.75 * d / 200.0
    ensures d <= 150.0 ==> VisualAt(d).borderOpacity == 1.0 - d / 150.0
  {
    CurvesFalling();
    if d <= 160.0 {
      InSegment(ScaleCurve, 0, d);
      assert Segment(ScaleCurve, 0, d) == 1.0 + d / 160.0 * (0.75 - 1.0);
    }
    if d <= 200.0 {
      InSegment(OpacityCurve, 0, d);
      assert Segment(OpacityCurve, 0, d) == 1.0 + d / 200.0 * (0.25 - 1.0);
    }
    if d <= 150.0 {
      InSegment(BorderOpacityCurve, 0, d);
      assert Segment(BorderOpacityCurve, 0, d) == 1.0 + d / 150.0 * (0.0 - 1.0);
    }
  }

  /** A tile further from the centre is never larger or more visible in any of the four respects. */
  lemma VisualMonotone(d1: real, d2: real)
    requires d1 <= d2
    ensures VisualAt(d1).scale >= VisualAt(d2).scale
    ensures VisualAt(d1).opacity >= VisualAt(d2).opacity
    ensures VisualAt(d1).borderOpacity >= VisualAt(d2).borderOpacity
    ensures VisualAt(d1).textOpacity >= VisualAt(d2).textOpacity
  {
    CurvesFalling();
    Monotone(ScaleCurve, d1, d2);
    Monotone(OpacityCurve, d1, d2);
    Monotone(BorderOpacityCurve, d1, d2);
    Monotone(TextOpacityCurve, d1, d2);
  }

  /** Moving away from the centre, the text is gone first (75), then the border (150), then scale bottoms out (160), opacity last (200). */
  lemma FadeOrder(d: real)
    ensures 75.0 <= d < 150.0 ==> VisualAt(d).textOpacity == 0.0 && VisualAt(d).borderOpacity > 0.0
    ensures 150.0 <= d < 160.0 ==> VisualAt(d).borderOpacity == 0.0 && VisualAt(d).scale > 0.75
    ensures 160.0 <= d < 200.0 ==> VisualAt(d).scale == 0.75 && VisualAt(d).opacity > 0.25
  {
    Pinned(d);
    if 0.0 <= d {
      LinearFalloff(d);
    }
  }

  /** A tile centred at (500, 400) in a window with half-size (400, 300) and no scroll is 200 away and fully faded. */
  lemma FarCornerScenario()
    ensures Distance(Placement(440.0, 300.0), Window(400.0, 300.0), Offset(0.0, 0.0)) == 200.0
    ensures TileVisual(Placement(440.0, 300.0), Window(400.0, 300.0), Offset(0.0, 0.0)) == Visual(0.75, 0.25, 0.0, 0.0)
  {
    Pinned(200.0);
  }
}
