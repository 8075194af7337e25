/** The part of a grab done outside the painter's lock: copying the snapshot's rectangles and, when
    the client takes no cursor events, drawing the cursor on top. */
module GrabCopy {
  import opened Arithmetic
  import opened Wrappers
  import opened Rects
  import opened DirtyRects
  import opened Blend
  import opened Memory
  import opened CopyPixels
  import opened CursorPlane
  import opened Cursor

  /** The pixel at `p` of a buffer with rows of `stride` bytes. */
  function PixelAt(bytes: seq<Byte>, stride: int, p: Point): Word
    requires 0 <= At(stride, p.y, 4 * p.x) && At(stride, p.y, 4 * p.x) + 4 <= |bytes|
  {
    WordAt(bytes, At(stride, p.y, 4 * p.x))
  }

  lemma PixelInBuffer(fb: Framebuffer, bytes: seq<Byte>, stride: int, p: Point)
    requires stride >= 4 * fb.width && |bytes| >= Times(stride, fb.height) && OnScreen(fb, p.x, p.y)
    ensures 0 <= At(stride, p.y, 4 * p.x) && At(stride, p.y, 4 * p.x) + 4 <= |bytes|
  {
    EndOfRow(stride, p.x, p.y, fb);
  }

  lemma PaintedByte(fb: Framebuffer, now: seq<Byte>, was: seq<Byte>, stride: int, done: iset<(int, int)>,
                    picture: Picture, y: int, c: int, start: int)
    requires Painted(fb, now, was, stride, done, picture)
    requires 0 <= y < fb.height && 0 <= c < 4 * fb.width <= stride
    requires start == Times(stride, y) && 0 <= start + c < |now|
    ensures now[start + c] == if (y, c) in done then picture(y, c) else was[start + c]
  {
    assert At(stride, y, c) == start + c;
    assert PaintedAt(fb, now, was, stride, done, picture, y, c);
  }

  /** A pixel of a painted buffer is the picture's, if its bytes were painted, or the old one. */
  lemma PaintedPixel(fb: Framebuffer, now: seq<Byte>, was: seq<Byte>, stride: int, done: iset<(int, int)>,
                     picture: Picture, p: Point, c: int, hit: bool)
    requires Painted(fb, now, was, stride, done, picture) && c == 4 * p.x
    requires stride >= 4 * fb.width && OnScreen(fb, p.x, p.y)
    requires 0 <= At(stride, p.y, c) && At(stride, p.y, c) + 4 <= |now|
    requires hit == ((p.y, c) in done) == ((p.y, c + 1) in done) == ((p.y, c + 2) in done) == ((p.y, c + 3) in done)
    ensures PixelAt(now, stride, p) ==
      if hit then Word(picture(p.y, c), picture(p.y, c + 1), picture(p.y, c + 2), picture(p.y, c + 3))
      else PixelAt(was, stride, p)
  {
    var start := Times(stride, p.y);
    PaintedByte(fb, now, was, stride, done, picture, p.y, c, start);
    PaintedByte(fb, now, was, stride, done, picture, p.y, c + 1, start);
    PaintedByte(fb, now, was, stride, done, picture, p.y, c + 2, start);
    PaintedByte(fb, now, was, stride, done, picture, p.y, c + 3, start);
  }

  lemma CopiedPixel(l: Layout, now: seq<Byte>, was: seq<Byte>, stride: int, rects: seq<Rect>, p: Point)
    requires Mapped(l) && Painted(l.fb, now, was, stride, Touched(rects), PictureOf(l))
    requires stride >= 4 * l.fb.width && OnScreen(l.fb, p.x, p.y)
    requires 0 <= At(stride, p.y, 4 * p.x) && At(stride, p.y, 4 * p.x) + 4 <= |now|
    ensures PixelAt(now, stride, p) ==
      if Covered(rects, p.x, p.y) then ImageOf(l)(p) else PixelAt(was, stride, p)
  {
    var c := 4 * p.x;
    assert c / 4 == (c + 1) / 4 == (c + 2) / 4 == (c + 3) / 4 == p.x;
    PaintedPixel(l.fb, now, was, stride, Touched(rects), PictureOf(l), p, c, Covered(rects, p.x, p.y));
    PixelMapped(l, p);
  }

  lemma PixelMapped(l: Layout, p: Point)
    requires Mapped(l) && OnScreen(l.fb, p.x, p.y)
    ensures var i, c := l.offset + At(l.pitch, p.y, 4 * p.x), 4 * p.x;
      && 0 <= i && i + 4 <= |l.memory|
      && ImageOf(l)(p) == Word(PictureOf(l)(p.y, c), PictureOf(l)(p.y, c + 1),
                               PictureOf(l)(p.y, c + 2), PictureOf(l)(p.y, c + 3))
  {
    EndOfRow(l.pitch, p.x, p.y, l.fb);
  }

  lemma PictureWord(image: Image, p: Point, b: int)
    requires b == 4 * p.x
    ensures var picture := RowsOf(image);
      Word(picture(p.y, b), picture(p.y, b + 1), picture(p.y, b + 2), picture(p.y, b + 3)) == image(p)
  {
    PictureByte(image, p, b, 0);
    PictureByte(image, p, b + 1, 1);
    PictureByte(image, p, b + 2, 2);
    PictureByte(image, p, b + 3, 3);
  }

  lemma DrawnPixel(l: Layout, now: seq<Byte>, was: seq<Byte>, stride: int, c: CursorPlane.Cursor, p: Point, v: Word)
    requires Painted(l.fb, now, was, stride, DrawnBytes(l.fb, c, c.height, 0), ComposedPicture(l, c))
    requires stride >= 4 * l.fb.width && OnScreen(l.fb, p.x, p.y)
    requires 0 <= At(stride, p.y, 4 * p.x) && At(stride, p.y, 4 * p.x) + 4 <= |now|
    requires v == Composed(CursorView(l), c, p)
    ensures PixelAt(now, stride, p) == if Draws(c, p) then v else PixelAt(was, stride, p)
  {
    var b := 4 * p.x;
    PictureWord(ComposedImage(l, c), p, b);
    PixelDrawnOrNot(l.fb, c, p, b);
    PaintedPixel(l.fb, now, was, stride, DrawnBytes(l.fb, c, c.height, 0), ComposedPicture(l, c), p, b, Draws(c, p));
  }

  lemma PixelDrawnOrNot(fb: Framebuffer, c: CursorPlane.Cursor, p: Point, b: int)
    requires b == 4 * p.x && OnScreen(fb, p.x, p.y)
    ensures var done := DrawnBytes(fb, c, c.height, 0);
      Draws(c, p) == ((p.y, b) in done) == ((p.y, b + 1) in done) == ((p.y, b + 2) in done) == ((p.y, b + 3) in done)
  {
  }

  /** The pixel at `p` after a grab: blended under the cursor, else the framebuffer's in the snapshot. */
  ghost predicate GrabbedAt(l: Layout, now: seq<Byte>, was: seq<Byte>, stride: int, rects: seq<Rect>,
                            shown: CursorPlane.Cursor, p: Point)
  {
    OnScreen(l.fb, p.x, p.y) ==>
      && |now| == |was|
      && 0 <= At(stride, p.y, 4 * p.x) && At(stride, p.y, 4 * p.x) + 4 <= |now|
      && PixelAt(now, stride, p) ==
           if Draws(shown, p) then Composed(CursorView(l), shown, p)
           else if Covered(rects, p.x, p.y) then ImageOf(l)(p)
           else PixelAt(was, stride, p)
  }

  ghost predicate Grabbed(l: Layout, now: seq<Byte>, was: seq<Byte>, stride: int, rects: seq<Rect>,
                          shown: CursorPlane.Cursor)
  {
    forall p :: GrabbedAt(l, now, was, stride, rects, shown, p)
  }

  /** A copy that failed: some bytes of the rectangles are the framebuffer's, all others as they were. */
  ghost predicate PartlyGrabbed(l: Layout, now: seq<Byte>, was: seq<Byte>, stride: int, rects: seq<Rect>) {
    exists done :: done <= Touched(rects) && Painted(l.fb, now, was, stride, done, PictureOf(l))
  }

  /** Rows do not overlap and all of them are in the buffer. */
  predicate Roomy(fb: Framebuffer, length: nat, stride: int) {
    stride >= 4 * fb.width && length >= Times(stride, fb.height)
  }

  /** The cursor a grab draws: none for a client that takes cursor events, and none that is turned down. */
  function DrawnCursor(c: EvdiCursor, cursorEvents: bool): CursorPlane.Cursor
    requires c.Valid()
    reads c
  {
    c.Shown().(visible := c.Shown().visible && !cursorEvents && !c.Rejected())
  }

  /** The words of a cursor that can be drawn. */
  function WordsOf(c: EvdiCursor): seq<Word>
    reads c
  {
    if c.Drawable() then c.obj.value.vmapping.value else []
  }

  /** A grab byte by byte: if the cursor is drawn, its pixels on the screen are blended, and all other pixels of
      the rectangles are copied; the others are as they were. */
  ghost predicate GrabbedBytes(l: Layout, now: seq<Byte>, was: seq<Byte>, stride: int, rects: seq<Rect>, drawn: bool,
                               words: seq<Word>, x: int, y: int, width: nat, height: nat)
  {
    && (drawn ==> AllBlended(l, now, stride, words, x, y, width, height))
    && (forall px, py :: OnScreen(l.fb, px, py) && !(drawn && UnderCursor(x, y, width, height, px, py)) ==>
          if Covered(rects, px, py) then CopiedAt(l, now, stride, px, py) else UntouchedAt(now, was, stride, px, py))
  }

  lemma BytesGrabbed(l: Layout, now: seq<Byte>, was: seq<Byte>, stride: int, rects: seq<Rect>,
                     c: CursorPlane.Cursor, drawn: bool, words: seq<Word>)
    requires Mapped(l) && Roomy(l.fb, |was|, stride) && Grabbed(l, now, was, stride, rects, c)
    requires drawn == c.visible
    requires drawn ==> c.pixels == PixelsOf(c.width, words) && Times(c.width, c.height) <= |words|
    ensures GrabbedBytes(l, now, was, stride, rects, drawn, words, c.x, c.y, c.width, c.height)
  {
    forall px, py | OnScreen(l.fb, px, py) && !(drawn && UnderCursor(c.x, c.y, c.width, c.height, px, py))
      ensures if Covered(rects, px, py) then CopiedAt(l, now, stride, px, py)
              else UntouchedAt(now, was, stride, px, py)
    {
      assert GrabbedAt(l, now, was, stride, rects, c, Point(px, py));
      if Covered(rects, px, py) {
        PixelIsCopied(l, now, stride, px, py);
      } else {
        PixelIsKept(now, was, stride, px, py);
      }
    }
    if drawn {
      forall i: nat, j: nat | i < 2 * (c.width / 2) && j < 2 * (c.height / 2) && OnScreen(l.fb, c.x + i, c.y + j)
        ensures BlendedAt(l, now, stride, words, c.x, c.y, c.width, i, j)
      {
        assert GrabbedAt(l, now, was, stride, rects, c, Point(c.x + i, c.y + j));
        PixelIsBlended(l, now, stride, c, words, i, j);
      }
    }
  }

  lemma PixelIsCopied(l: Layout, now: seq<Byte>, stride: int, x: int, y: int)
    requires Mapped(l) && OnScreen(l.fb, x, y)
    requires 0 <= At(stride, y, 4 * x) && At(stride, y, 4 * x) + 4 <= |now|
    requires PixelAt(now, stride, Point(x, y)) == ImageOf(l)(Point(x, y))
    ensures CopiedAt(l, now, stride, x, y)
  {
    EndOfRow(l.pitch, x, y, l.fb);
  }

  lemma PixelIsKept(now: seq<Byte>, was: seq<Byte>, stride: int, x: int, y: int)
    requires |now| == |was| && 0 <= At(stride, y, 4 * x) && At(stride, y, 4 * x) + 4 <= |now|
    requires PixelAt(now, stride, Point(x, y)) == PixelAt(was, stride, Point(x, y))
    ensures UntouchedAt(now, was, stride, x, y)
  {
  }

  lemma PixelIsBlended(l: Layout, now: seq<Byte>, stride: int, c: CursorPlane.Cursor, words: seq<Word>, i: nat, j: nat)
    requires Mapped(l) && OnScreen(l.fb, c.x + i, c.y + j)
    requires c.visible && c.pixels == PixelsOf(c.width, words) && Times(c.width, c.height) <= |words|
    requires i < 2 * (c.width / 2) && j < 2 * (c.height / 2)
    requires 0 <= At(stride, c.y + j, 4 * (c.x + i)) && At(stride, c.y + j, 4 * (c.x + i)) + 4 <= |now|
    requires PixelAt(now, stride, Point(c.x + i, c.y + j)) == Composed(CursorView(l), c, Point(c.x + i, c.y + j))
    ensures BlendedAt(l, now, stride, words, c.x, c.y, c.width, i, j)
  {
    hide Times, BlendWord, CursorView, PixelsOf, Mapped;
    FramebufferReads(l, Point(c.x + i, c.y + j));
    CursorReads(c, words, i, j);
  }

  /** After a grab that succeeds, each pixel of the cursor shows the framebuffer, as read, blended with
      it, each other pixel of the snapshot the framebuffer; all others are untouched. */
  method CopyGrabbed(l: Layout, cursor: EvdiCursor, cursorEvents: bool, buffer: array<Byte>, stride: int,
                     rects: seq<Rect>)
    returns (err: Option<Errno>)
    requires Mapped(l) && cursor.Valid()
    requires forall i :: 0 <= i < |rects| ==> rects[i].x1 <= rects[i].x2 && rects[i].y1 <= rects[i].y2
    modifies buffer
    ensures err.None? || err == Some(EFAULT)
    ensures err.None? ==> AllFit(rects, l.fb.width, l.fb.height)
    ensures AllFit(rects, l.fb.width, l.fb.height) && Roomy(l.fb, buffer.Length, stride) ==> err.None?
    ensures err.None? && Roomy(l.fb, buffer.Length, stride) ==>
      Grabbed(l, buffer[..], old(buffer[..]), stride, rects, DrawnCursor(cursor, cursorEvents))
    ensures err.None? && Roomy(l.fb, buffer.Length, stride) ==>
      GrabbedBytes(l, buffer[..], old(buffer[..]), stride, rects, !cursorEvents && cursor.Drawable(), WordsOf(cursor),
                   cursor.x, cursor.y, cursor.width, cursor.height)
    ensures err.Some? && stride >= 4 * l.fb.width ==> PartlyGrabbed(l, buffer[..], old(buffer[..]), stride, rects)
  {
    ghost var was, shown := buffer[..], DrawnCursor(cursor, cursorEvents);
    var ok, done := CopyPrimaryPixels(l, buffer, stride, rects, l.fb.width, l.fb.height);
    ghost var copied := buffer[..];
    if !ok {
      return Some(EFAULT);
    }
    if !cursorEvents {
      var failed := DrawCursor(l, cursor, buffer, stride, shown);
    }
    if Roomy(l.fb, buffer.Length, stride) {
      AllGrabbed(l, buffer[..], copied, was, stride, rects, shown);
      cursor.RejectedIff();
      BytesGrabbed(l, buffer[..], was, stride, rects, shown, !cursorEvents && cursor.Drawable(), WordsOf(cursor));
    }
    err := None;
  }

  method DrawCursor(l: Layout, cursor: EvdiCursor, buffer: array<Byte>, stride: int, ghost shown: CursorPlane.Cursor)
    returns (failed: Option<Errno>)
    requires Mapped(l) && cursor.Valid() && shown == DrawnCursor(cursor, false)
    modifies buffer
    ensures Roomy(l.fb, buffer.Length, stride) ==>
      if shown.visible
      then Painted(l.fb, buffer[..], old(buffer[..]), stride, DrawnBytes(l.fb, shown, shown.height, 0),
                   ComposedPicture(l, shown))
      else buffer[..] == old(buffer[..])
  {
    ghost var done;
    failed, done := cursor.ComposeAndCopy(l, buffer, stride, cursor.Shown());
    if Roomy(l.fb, buffer.Length, stride) && !cursor.Rejected() {
      assert failed.None?;
      assert cursor.enabled ==> shown == cursor.Shown();
    }
  }

  lemma AllGrabbed(l: Layout, now: seq<Byte>, copied: seq<Byte>, was: seq<Byte>, stride: int, rects: seq<Rect>,
                   shown: CursorPlane.Cursor)
    requires Mapped(l) && Roomy(l.fb, |was|, stride)
    requires Painted(l.fb, copied, was, stride, Touched(rects), PictureOf(l))
    requires if shown.visible
             then Painted(l.fb, now, copied, stride, DrawnBytes(l.fb, shown, shown.height, 0),
                          ComposedPicture(l, shown))
             else now == copied
    ensures Grabbed(l, now, was, stride, rects, shown)
  {
    forall p: Point
      ensures GrabbedAt(l, now, was, stride, rects, shown, p)
    {
      GrabbedPixel(l, now, copied, was, stride, rects, shown, p);
    }
  }

  lemma GrabbedPixel(l: Layout, now: seq<Byte>, copied: seq<Byte>, was: seq<Byte>, stride: int, rects: seq<Rect>,
                     shown: CursorPlane.Cursor, p: Point)
    requires Mapped(l) && Roomy(l.fb, |was|, stride)
    requires Painted(l.fb, copied, was, stride, Touched(rects), PictureOf(l))
    requires if shown.visible
             then Painted(l.fb, now, copied, stride, DrawnBytes(l.fb, shown, shown.height, 0),
                          ComposedPicture(l, shown))
             else now == copied
    ensures GrabbedAt(l, now, was, stride, rects, shown, p)
  {
    if OnScreen(l.fb, p.x, p.y) {
      PixelInBuffer(l.fb, now, stride, p);
      CopiedPixel(l, copied, was, stride, rects, p);
      if shown.visible {
        DrawnPixel(l, now, copied, stride, shown, p, Composed(CursorView(l), shown, p));
      }
    }
  }
}
