/** The few toolkit values the widgets' event handlers read or return: mouse cursors, pointer
    positions and sizes. Coordinates are `float32` in the toolkit; here they are reals and no
    rounding is modelled. */
module Desktop {

  /** `desktop.Cursor`: the widgets return either the pointing hand or the default arrow. */
  datatype Cursor = DefaultCursor | PointerCursor

  /** `fyne.Position`. */
  datatype Position = Position(x: real, y: real)

  /** `fyne.Size`. */
  datatype Size = Size(width: real, height: real)

  /** `Size.IsZero`: both dimensions are zero. */
  predicate IsZero(s: Size)
  {
    s.width == 0.0 && s.height == 0.0
  }

  /** The cursor every hover-aware widget reports: the pointer while hovered. */
  function HoverCursor(hovered: bool): (c: Cursor)
    ensures c == PointerCursor <==> hovered
  {
    if hovered then PointerCursor else DefaultCursor
  }

  /** The tap guard of the switch and the single-select chip: with a cached size, a point
      beyond its width or height is outside. */
  predicate TappedOutside(minSize: Size, p: Position)
  {
    !IsZero(minSize) && (p.x > minSize.width || p.y > minSize.height)
  }

  /** The hover rule of `MouseMoved`: no cached size yet, or the point within it. */
  predicate HoversAt(minSize: Size, p: Position)
  {
    IsZero(minSize) || (p.x <= minSize.width && p.y <= minSize.height)
  }

  /** A widget with these rules reacts to a tap exactly where it shows hovering. */
  lemma HoverAreaIsTapArea(minSize: Size, p: Position)
    ensures HoversAt(minSize, p) <==> !TappedOutside(minSize, p)
  {
  }
}
