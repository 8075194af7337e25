/** Copying the grabbed rectangles from the framebuffer to the client's buffer, row by row. */
module CopyPixels {
  import opened Arithmetic
  import opened Rects
  import opened DirtyRects
  import opened Blend
  import opened Memory

  /** The bytes of the pixels of the rectangles, and of one rectangle above row `upTo`. */
  ghost function Touched(rects: seq<Rect>): iset<(int, int)> {
    iset y: int, c: int | Covered(rects, c / 4, y) :: (y, c)
  }

  ghost function TouchedRows(r: Rect, upTo: int): iset<(int, int)> {
    iset y: int, c: int | Inside(r, c / 4, y) && y < upTo :: (y, c)
  }

  lemma RowTouched(r: Rect, y: int)
    requires r.y1 <= y < r.y2
    ensures TouchedRows(r, y + 1) == TouchedRows(r, y) + Span(y, 4 * r.x1, 4 * r.x2)
  {
  }

  lemma RectTouched(rects: seq<Rect>, k: nat)
    requires k < |rects|
    ensures Touched(rects[..k + 1]) == Touched(rects[..k]) + TouchedRows(rects[k], rects[k].y2)
  {
    var a, b := rects[..k], rects[..k + 1];
    assert forall i :: 0 <= i < k ==> a[i] == b[i];
    assert b[k] == rects[k];
    forall y: int, c: int
      ensures Covered(b, c / 4, y) <==> Covered(a, c / 4, y) || Inside(rects[k], c / 4, y)
    {
      if Covered(a, c / 4, y) {
        var i :| 0 <= i < k && Inside(a[i], c / 4, y);
        assert Inside(b[i], c / 4, y);
      }
      if Inside(rects[k], c / 4, y) {
        assert Inside(b[k], c / 4, y);
      }
    }
  }

  /** Where row `y` of a rectangle starts, computed as the C code does. */
  method RowOffset(stride: int, y: nat, byteOffset: int) returns (at: int)
    ensures at == At(stride, y, byteOffset)
  {
    TimesIsProduct(stride, y);
    at := stride * y + byteOffset;
  }

  /** One row of a rectangle. */
  method CopyRow(l: Layout, buffer: array<Byte>, stride: int, ghost r: Rect, ghost y: nat, src: int, dst: int,
                 byteSpan: nat)
    returns (ok: bool)
    requires Mapped(l) && Fits(r, l.fb.width, l.fb.height) && y < l.fb.height
    requires src == l.offset + At(l.pitch, y, 4 * r.x1) && dst == At(stride, y, 4 * r.x1)
    requires byteSpan == 4 * r.x2 - 4 * r.x1
    modifies buffer
    ensures stride >= 4 * l.fb.width && buffer.Length >= Times(stride, l.fb.height) ==> ok
    ensures ok ==> PaintsSpan(old(buffer[..]), buffer[..], stride, y, 4 * r.x1, 4 * r.x2, PictureOf(l))
    ensures !ok ==> buffer[..] == old(buffer[..])
  {
    RowsInOrder(l.pitch, y, l.fb.height);
    if stride >= 0 {
      RowsInOrder(stride, y, l.fb.height);
    }
    ok := CopyToUser(buffer, dst, l.memory, src, byteSpan);
  }

  /** The rows of one rectangle; on failure some of them are copied. */
  method CopyRect(l: Layout, buffer: array<Byte>, stride: int, r: Rect, ghost was: seq<Byte>,
                  ghost done: iset<(int, int)>)
    returns (ok: bool, ghost now: iset<(int, int)>)
    requires Mapped(l) && Fits(r, l.fb.width, l.fb.height)
    requires stride >= 4 * l.fb.width ==> Painted(l.fb, buffer[..], was, stride, done, PictureOf(l))
    modifies buffer
    ensures stride >= 4 * l.fb.width && buffer.Length >= Times(stride, l.fb.height) ==> ok
    ensures stride >= 4 * l.fb.width ==> Painted(l.fb, buffer[..], was, stride, now, PictureOf(l))
    ensures now <= done + TouchedRows(r, r.y2) && (ok ==> now == done + TouchedRows(r, r.y2))
  {
    var byteOffset := r.x1 * 4;
    var byteSpan := (r.x2 - r.x1) * 4;
    var src := RowOffset(l.pitch, r.y1, byteOffset);
    src := l.offset + src;
    var dst := RowOffset(stride, r.y1, byteOffset);
    var y := r.y2 - r.y1;
    now := done + TouchedRows(r, r.y1);
    assert now == done;
    while y > 0
      invariant 0 <= y <= r.y2 - r.y1
      invariant src == l.offset + At(l.pitch, r.y2 - y, 4 * r.x1)
      invariant dst == At(stride, r.y2 - y, 4 * r.x1)
      invariant now == done + TouchedRows(r, r.y2 - y)
      invariant stride >= 4 * l.fb.width ==> Painted(l.fb, buffer[..], was, stride, now, PictureOf(l))
    {
      ghost var row, before := r.y2 - y, buffer[..];
      var copied := CopyRow(l, buffer, stride, r, row, src, dst, byteSpan);
      assert TouchedRows(r, row) <= TouchedRows(r, r.y2);
      if !copied {
        return false, now;
      }
      RowTouched(r, row);
      if stride >= 4 * l.fb.width {
        SpanPainted(l.fb, before, buffer[..], was, stride, now, PictureOf(l), row, 4 * r.x1, 4 * r.x2);
      }
      now := now + Span(row, 4 * r.x1, 4 * r.x2);
      assert now == done + TouchedRows(r, row + 1);
      src := src + l.pitch;
      dst := dst + stride;
      y := y - 1;
    }
    ok := true;
  }

  /** On success exactly the pixels of the rectangles equal the framebuffer and every other byte,
      stride padding included, is as it was; this does not depend on the order or overlap of the
      rectangles. A failing copy leaves only some of those pixels copied. It succeeds when they fit the
      buffer's dimensions and the buffer is long enough, and not when one is larger than the dimensions. */
  method CopyPrimaryPixels(l: Layout, buffer: array<Byte>, stride: int, rects: seq<Rect>, maxX: int, maxY: int)
    returns (ok: bool, ghost done: iset<(int, int)>)
    requires Mapped(l) && maxX == l.fb.width && maxY == l.fb.height
    requires forall i :: 0 <= i < |rects| ==> rects[i].x1 <= rects[i].x2 && rects[i].y1 <= rects[i].y2
    modifies buffer
    ensures ok ==> AllFit(rects, maxX, maxY)
    ensures AllFit(rects, maxX, maxY) && stride >= 4 * maxX && buffer.Length >= Times(stride, maxY) ==> ok
    ensures stride >= 4 * maxX ==> Painted(l.fb, buffer[..], old(buffer[..]), stride, done, PictureOf(l))
    ensures done <= Touched(rects) && (ok ==> done == Touched(rects))
    ensures ok && stride >= 4 * maxX && buffer.Length >= Times(stride, maxY) ==>
      AllCopied(l, buffer[..], stride, rects) && OthersKept(l, buffer[..], old(buffer[..]), stride, rects)
  {
    ghost var was := buffer[..];
    var k := 0;
    done := Touched(rects[..0]);
    assert done == iset{};
    while k < |rects|
      invariant k <= |rects|
      invariant AllFit(rects[..k], maxX, maxY)
      invariant done == Touched(rects[..k])
      invariant stride >= 4 * maxX ==> Painted(l.fb, buffer[..], was, stride, done, PictureOf(l))
    {
      var r := rects[k];
      RectTouched(rects, k);
      TouchedWhole(rects, k + 1);
      if maxX < r.x2 || maxY < r.y2 {
        return false, done;
      }
      var copied;
      copied, done := CopyRect(l, buffer, stride, r, was, done);
      if !copied {
        return false, done;
      }
      assert rects[..k + 1] == rects[..k] + [r];
      k := k + 1;
    }
    assert rects[..|rects|] == rects;
    ok := true;
    if stride >= 4 * maxX && buffer.Length >= Times(stride, maxY) {
      PaintedCopies(l, buffer[..], was, stride, rects);
      OthersStay(l, buffer[..], was, stride, rects);
    }
  }

  /** The four bytes of the pixel in the buffer are those of the framebuffer's pixel in its object. */
  ghost predicate CopiedAt(l: Layout, bytes: seq<Byte>, stride: int, x: int, y: int) {
    var d, r := Times(stride, y) + 4 * x, l.offset + Times(l.pitch, y) + 4 * x;
    && 0 <= d && d + 4 <= |bytes| && 0 <= r && r + 4 <= |l.memory|
    && bytes[d] == l.memory[r] && bytes[d + 1] == l.memory[r + 1]
    && bytes[d + 2] == l.memory[r + 2] && bytes[d + 3] == l.memory[r + 3]
  }

  ghost predicate AllCopied(l: Layout, bytes: seq<Byte>, stride: int, rects: seq<Rect>) {
    forall x, y :: Covered(rects, x, y) ==> CopiedAt(l, bytes, stride, x, y)
  }

  /** Pixels on the screen outside the rectangles are as they were. */
  ghost predicate OthersKept(l: Layout, now: seq<Byte>, was: seq<Byte>, stride: int, rects: seq<Rect>) {
    forall x, y :: OnScreen(l.fb, x, y) && !Covered(rects, x, y) ==> UntouchedAt(now, was, stride, x, y)
  }

  lemma OthersStay(l: Layout, now: seq<Byte>, was: seq<Byte>, stride: int, rects: seq<Rect>)
    requires stride >= 4 * l.fb.width && |now| >= Times(stride, l.fb.height)
    requires Painted(l.fb, now, was, stride, Touched(rects), PictureOf(l))
    ensures OthersKept(l, now, was, stride, rects)
  {
    forall x, y | OnScreen(l.fb, x, y) && !Covered(rects, x, y)
      ensures UntouchedAt(now, was, stride, x, y)
    {
      PixelUntouched(l.fb, now, was, stride, Touched(rects), PictureOf(l), x, y);
    }
  }

  lemma PaintedCopies(l: Layout, now: seq<Byte>, was: seq<Byte>, stride: int, rects: seq<Rect>)
    requires Mapped(l) && stride >= 4 * l.fb.width && |now| >= Times(stride, l.fb.height)
    requires AllFit(rects, l.fb.width, l.fb.height) && Painted(l.fb, now, was, stride, Touched(rects), PictureOf(l))
    ensures AllCopied(l, now, stride, rects)
  {
    forall x, y | Covered(rects, x, y)
      ensures CopiedAt(l, now, stride, x, y)
    {
      var i :| 0 <= i < |rects| && Inside(rects[i], x, y);
      assert OnScreen(l.fb, x, y);
      PixelCopies(l, now, was, stride, rects, x, y);
    }
  }

  lemma PixelCopies(l: Layout, now: seq<Byte>, was: seq<Byte>, stride: int, rects: seq<Rect>, x: int, y: int)
    requires Mapped(l) && stride >= 4 * l.fb.width && |now| >= Times(stride, l.fb.height)
    requires Painted(l.fb, now, was, stride, Touched(rects), PictureOf(l))
    requires OnScreen(l.fb, x, y) && Covered(rects, x, y)
    ensures CopiedAt(l, now, stride, x, y)
  {
    hide Painted, PaintedAt, Touched, Times, Covered;
    RowsInOrder(stride, y, l.fb.height);
    RowsInOrder(l.pitch, y, l.fb.height);
    CopiedByte(l, now, was, stride, rects, x, y, 0);
    CopiedByte(l, now, was, stride, rects, x, y, 1);
    CopiedByte(l, now, was, stride, rects, x, y, 2);
    CopiedByte(l, now, was, stride, rects, x, y, 3);
  }

  lemma CopiedByte(l: Layout, now: seq<Byte>, was: seq<Byte>, stride: int, rects: seq<Rect>, x: int, y: int, k: nat)
    requires Painted(l.fb, now, was, stride, Touched(rects), PictureOf(l)) && stride >= 4 * l.fb.width
    requires OnScreen(l.fb, x, y) && Covered(rects, x, y) && k < 4
    requires 0 <= Times(stride, y) && Times(stride, y) + 4 * x + 4 <= |now|
    ensures now[Times(stride, y) + 4 * x + k] == PictureOf(l)(y, 4 * x + k)
  {
    var c := 4 * x + k;
    assert c / 4 == x && (y, c) in Touched(rects);
    assert At(stride, y, c) == Times(stride, y) + c;
    assert PaintedAt(l.fb, now, was, stride, Touched(rects), PictureOf(l), y, c);
  }

  lemma TouchedWhole(rects: seq<Rect>, k: nat)
    requires k <= |rects|
    ensures Touched(rects[..k]) <= Touched(rects)
  {
    forall y: int, c: int | Covered(rects[..k], c / 4, y)
      ensures Covered(rects, c / 4, y)
    {
      var i :| 0 <= i < k && Inside(rects[..k][i], c / 4, y);
      assert Inside(rects[i], c / 4, y);
    }
  }
}
