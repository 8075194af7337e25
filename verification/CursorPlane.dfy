/** The cursor as a plane: where it is drawn and the rectangle its update reports. */
module CursorPlane {
  import opened Rects
  import opened Blend

  datatype Point = Point(x: int, y: int)

  type Image = Point -> Word

  datatype Cursor_Raw = Cursor(visible: bool, x: int, y: int, width: nat, height: nat, pixels: Image)
  type Cursor = c: Cursor_Raw | c.width <= MAX_WIDTH && c.height <= MAX_HEIGHT
    witness Cursor(false, 0, 0, 0, 0, (p: Point) => ZERO)

  /** The composition loops run over twice half the size, so an odd last column or row is not drawn. */
  function Drawn(size: nat): nat {
    2 * (size / 2)
  }

  predicate Draws(c: Cursor, p: Point) {
    c.visible && c.x <= p.x < c.x + Drawn(c.width) && c.y <= p.y < c.y + Drawn(c.height)
  }

  /** The picture a client should see: the framebuffer with the cursor blended where it is now. */
  function Composed(fb: Image, c: Cursor, p: Point): Word {
    if Draws(c, p) then BlendWord(fb(p), c.pixels(Point(p.x - c.x, p.y - c.y))) else fb(p)
  }

  /** Storing an int in an unsigned short. */
  function Truncated(n: int): UShort {
    n % 0x1_0000
  }

  /** It keeps the low 16 bits. */
  lemma TruncatedKeepsLowBits(n: int)
    ensures (Truncated(n) - n) % 0x1_0000 == 0
  {
  }

  function CursorRect(x: int, y: int, width: nat, height: nat): Rect {
    Rect(Truncated(if x < 0 then 0 else x), Truncated(if y < 0 then 0 else y),
         Truncated(x + width), Truncated(y + height))
  }

  /** Whatever the truncation does to far away positions, the clipped rectangle holds every pixel
      of the cursor that is on the screen. */
  lemma CursorRectCovers(fb: Framebuffer, x: int, y: int, width: nat, height: nat, p: Point)
    requires width <= MAX_WIDTH && height <= MAX_HEIGHT
    requires x <= p.x < x + width && y <= p.y < y + height && OnScreen(fb, p.x, p.y)
    ensures Inside(Sanitized(fb, CursorRect(x, y, width, height)), p.x, p.y)
  {
    var r := CursorRect(x, y, width, height);
    Fitting(x + width);
    Fitting(y + height);
    Fitting(if x < 0 then 0 else x);
    Fitting(if y < 0 then 0 else y);
    assert r.x1 <= p.x < r.x2 && r.y1 <= p.y < r.y2;
  }

  lemma Fitting(n: int)
    requires 0 <= n <= 0xFFFF
    ensures Truncated(n) == n
  {
  }
}
