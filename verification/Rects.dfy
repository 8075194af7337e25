/** Clip rectangles of unsigned shorts, their geometry, and the clipping of a
    reported rectangle to a framebuffer. */
module Rects {
  import opened Arithmetic

  // The largest framebuffer the mode configuration admits.
  const MAX_WIDTH := 7680
  const MAX_HEIGHT := 4320

  type UShort = n: int | 0 <= n <= 0xFFFF
  type Int32 = n: int | -0x8000_0000 <= n <= 0x7FFF_FFFF

  datatype Rect = Rect(x1: UShort, y1: UShort, x2: UShort, y2: UShort)

  datatype Framebuffer_Raw = Framebuffer(id: nat, width: nat, height: nat, format: nat)
  type Framebuffer = f: Framebuffer_Raw | f.width <= MAX_WIDTH && f.height <= MAX_HEIGHT
    witness Framebuffer(0, 0, 0, 0)

  predicate Inside(r: Rect, x: int, y: int) {
    r.x1 <= x < r.x2 && r.y1 <= y < r.y2
  }

  predicate OnScreen(fb: Framebuffer, x: int, y: int) {
    0 <= x < fb.width && 0 <= y < fb.height
  }

  /** The whole screen. */
  function Full(fb: Framebuffer): Rect {
    Rect(0, 0, fb.width, fb.height)
  }

  /** `r` has its corners in order and lies in a `width` by `height` screen. */
  predicate Fits(r: Rect, width: int, height: int) {
    r.x1 <= r.x2 <= width && r.y1 <= r.y2 <= height
  }

  /** The box of `r` lies in the box of `box`, empty boxes included. */
  predicate Within(r: Rect, box: Rect) {
    box.x1 <= r.x1 && box.y1 <= r.y1 && r.x2 <= box.x2 && r.y2 <= box.y2
  }

  function Min(a: int, b: int): int { if a < b then a else b }

  function Max(a: int, b: int): int { if a < b then b else a }

  /** The bounding rectangle of two: the least box that holds both. */
  function Bound(a: Rect, b: Rect): (r: Rect)
    ensures forall box :: Within(r, box) <==> Within(a, box) && Within(b, box)
  {
    Rect(Min(a.x1, b.x1), Min(a.y1, b.y1), Max(a.x2, b.x2), Max(a.y2, b.y2))
  }

  function Area(r: Rect): int {
    Times(r.x2 - r.x1, r.y2 - r.y1)
  }

  /** On any admissible framebuffer an area, and the sum of two, fit a signed 32-bit int. */
  lemma AreaFitsInt32(r: Rect)
    requires Fits(r, MAX_WIDTH, MAX_HEIGHT)
    ensures 0 <= Area(r) <= 0x3FFF_FFFF
  {
    TimesMonotone(r.x2 - r.x1, r.y2 - r.y1, MAX_WIDTH, MAX_HEIGHT);
    TimesIsProduct(MAX_WIDTH, MAX_HEIGHT);
  }

  /** What clipping must return: the rectangle with its corners put in order, cut to the screen. */
  function Sanitized(fb: Framebuffer, dirty: Rect): (r: Rect)
    ensures Fits(r, fb.width, fb.height)
    ensures forall x, y :: Inside(r, x, y) <==>
      OnScreen(fb, x, y) &&
      Min(dirty.x1, dirty.x2) <= x < Max(dirty.x1, dirty.x2) &&
      Min(dirty.y1, dirty.y2) <= y < Max(dirty.y1, dirty.y2)
  {
    Rect(Min(Min(dirty.x1, dirty.x2), fb.width), Min(Min(dirty.y1, dirty.y2), fb.height),
         Min(Max(dirty.x1, dirty.x2), fb.width), Min(Max(dirty.y1, dirty.y2), fb.height))
  }

  method SanitizeRect(fb: Framebuffer, dirty: Rect) returns (rect: Rect)
    ensures rect == Sanitized(fb, dirty)
  {
    rect := dirty;
    if rect.x1 > rect.x2 {
      var tmp := rect.x2;
      rect := rect.(x2 := rect.x1);
      rect := rect.(x1 := tmp);
    }
    if rect.y1 > rect.y2 {
      var tmp := rect.y2;
      rect := rect.(y2 := rect.y1);
      rect := rect.(y1 := tmp);
    }
    if rect.x1 > fb.width {
      rect := rect.(x1 := fb.width);
    }
    if rect.y1 > fb.height {
      rect := rect.(y1 := fb.height);
    }
    if rect.x2 > fb.width {
      rect := rect.(x2 := fb.width);
    }
    if rect.y2 > fb.height {
      rect := rect.(y2 := fb.height);
    }
  }
}
