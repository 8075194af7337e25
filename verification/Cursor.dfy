/** The cursor object and its composition into the client's buffer. */
module Cursor {
  import opened Arithmetic
  import opened Wrappers
  import opened Rects
  import opened Blend
  import opened Memory
  import opened CursorPlane

  /** A cursor image; `vmapping` is what mapping it gives, if that succeeds. */
  datatype Gem = Gem(size: nat, vmapping: Option<seq<Word>>)

  predicate GemValid(obj: Option<Gem>) {
    obj.Some? && obj.value.vmapping.Some? ==> 4 * |obj.value.vmapping.value| >= obj.value.size - 3
  }

  /** The framebuffer's pixels, as words of its memory. */
  function ImageOf(l: Layout): Image {
    (p: Point) =>
      if 0 <= l.offset + At(l.pitch, p.y, 4 * p.x) && l.offset + At(l.pitch, p.y, 4 * p.x) + 4 <= |l.memory|
      then WordAt(l.memory, l.offset + At(l.pitch, p.y, 4 * p.x)) else ZERO
  }

  /** The index the code reads for a pixel: it counts rows in whole words, pitch divided by four. */
  function ReadIndex(l: Layout, p: Point): int {
    l.offset + 4 * At(l.pitch / 4, p.y, p.x)
  }

  /** The framebuffer's pixels as the code that blends the cursor reads them. */
  function CursorView(l: Layout): Image {
    (p: Point) =>
      if 0 <= ReadIndex(l, p) && ReadIndex(l, p) + 4 <= |l.memory| then WordAt(l.memory, ReadIndex(l, p)) else ZERO
  }

  /** The cursor's pixels, row by row. */
  function PixelsOf(width: nat, words: seq<Word>): Image {
    (p: Point) =>
      if 0 <= At(width, p.y, p.x) < |words| then words[At(width, p.y, p.x)] else ZERO
  }

  /** The bytes of an image's rows. */
  function RowsOf(image: Image): Picture {
    (y: int, b: int) => ByteOf(image(Point(b / 4, y)), b % 4)
  }

  /** The framebuffer, as read, with the cursor blended in, and its bytes. */
  function ComposedImage(l: Layout, c: CursorPlane.Cursor): Image {
    (p: Point) => Composed(CursorView(l), c, p)
  }

  function ComposedPicture(l: Layout, c: CursorPlane.Cursor): Picture {
    RowsOf(ComposedImage(l, c))
  }

  /** The bytes of the cursor's pixels that are on the screen, in its rows up to `rows` and
      columns of that row up to `cols`. */
  ghost function DrawnBytes(fb: Framebuffer, c: CursorPlane.Cursor, rows: int, cols: int): iset<(int, int)> {
    iset y: int, b: int |
      OnScreen(fb, b / 4, y) && Draws(c, Point(b / 4, y))
      && (y < c.y + rows || (y == c.y + rows && b / 4 < c.x + cols)) :: (y, b)
  }

  class EvdiCursor {
    var enabled: bool
    var x: int
    var y: int
    var width: nat
    var height: nat
    var hotX: int
    var hotY: int
    var pixelFormat: nat
    var bytesPerPixel: nat     // of that format
    var stride: nat
    var obj: Option<Gem>

    predicate Valid()
      reads this
    {
      width <= MAX_WIDTH && height <= MAX_HEIGHT && GemValid(obj)
    }

    constructor ()
      ensures Valid() && !enabled && obj.None?
    {
      enabled, x, y, width, height, obj := false, 0, 0, 0, 0, None;
      hotX, hotY, pixelFormat, bytesPerPixel, stride := 0, 0, 0, 0, 0;
    }

    /** The cursor as it is drawn. */
    function Shown(): CursorPlane.Cursor
      requires Valid()
      reads this
    {
      CursorPlane.Cursor(enabled && obj.Some? && obj.value.vmapping.Some?, x, y, width, height,
                         if obj.Some? && obj.value.vmapping.Some? then PixelsOf(width, obj.value.vmapping.value)
                         else PixelsOf(width, []))
    }

    /** Whether composing turns the cursor down; sizes are compared in 32-bit arithmetic. */
    predicate Rejected()
      reads this
    {
      enabled && (obj.None? || obj.value.vmapping.None? || bytesPerPixel != 4 ||
                  Wrap32(Times(4 * width, height)) > obj.value.size)
    }

    method Set(newObj: Option<Gem>, newWidth: nat, newHeight: nat, newHotX: int, newHotY: int,
               newFormat: nat, newBytesPerPixel: nat, newStride: nat)
      requires newWidth <= MAX_WIDTH && newHeight <= MAX_HEIGHT && GemValid(newObj)
      modifies this
      ensures Valid() && x == old(x) && y == old(y) && width == newWidth && height == newHeight
      ensures hotX == newHotX && hotY == newHotY
      ensures pixelFormat == newFormat && bytesPerPixel == newBytesPerPixel && stride == newStride
      ensures enabled == obj.Some?
      ensures obj == if newObj.Some? && newObj.value.vmapping.None? then None else newObj
    {
      var mapped := newObj;
      if newObj.Some? && newObj.value.vmapping.None? {
        mapped := None;
      }
      enabled := mapped.Some?;
      width := newWidth;
      height := newHeight;
      hotX := newHotX;
      hotY := newHotY;
      pixelFormat := newFormat;
      bytesPerPixel := newBytesPerPixel;
      stride := newStride;
      obj := mapped;
    }

    method Enable(enable: bool)
      requires Valid()
      modifies this`enabled, this`obj
      ensures Valid() && enabled == enable && obj == if enable then old(obj) else None
      ensures !enable ==> !Shown().visible
    {
      enabled := enable;
      if !enable {
        obj := None;
      }
    }

    method Move(newX: int, newY: int)
      requires Valid()
      modifies this`x, this`y
      ensures Valid() && Shown() == old(Shown()).(x := newX, y := newY)
    {
      x := newX;
      y := newY;
    }

    /** One pixel: the words read are the cursor's and the framebuffer's at that place, and the
        blend is written to the same place of the buffer. */
    method ComposePixel(l: Layout, buffer: array<Byte>, stride: int, words: seq<Word>, i: nat, j: nat,
                        ghost shown: CursorPlane.Cursor, ghost px: nat, ghost py: nat)
      returns (ok: bool)
      requires Valid() && enabled && obj.Some? && obj.value.vmapping == Some(words)
      requires bytesPerPixel == 4 && Times(width, height) <= |words|
      requires Mapped(l) && i < Drawn(width) && j < Drawn(height)
      requires shown == Shown() && px == x + i && py == y + j && OnScreen(l.fb, px, py)
      modifies buffer
      ensures stride >= 4 * l.fb.width && buffer.Length >= Times(stride, l.fb.height) ==> ok
      ensures ok ==>
        PaintsSpan(old(buffer[..]), buffer[..], stride, py, 4 * px, 4 * px + 4, ComposedPicture(l, shown))
      ensures !ok ==> buffer[..] == old(buffer[..])
    {
      ghost var image := ComposedImage(l, shown);
      var composed := BlendedPixel(l, words, i, j, shown, image, px, py);
      var cmdOffset := PixelOffset(stride, x + i, y + j, bytesPerPixel);
      ok := WritePixel(l.fb, buffer, stride, cmdOffset, composed, image, px, py);
    }

    method BlendedPixel(l: Layout, words: seq<Word>, i: nat, j: nat, ghost shown: CursorPlane.Cursor,
                        ghost image: Image, ghost px: nat, ghost py: nat)
      returns (composed: Word)
      requires Valid() && shown == Shown() && enabled && obj.Some? && obj.value.vmapping == Some(words)
      requires Times(width, height) <= |words|
      requires Mapped(l) && i < Drawn(width) && j < Drawn(height)
      requires px == x + i && py == y + j && OnScreen(l.fb, px, py) && image == ComposedImage(l, shown)
      ensures composed == image(Point(px, py))
    {
      var cursorValue := CursorWord(width, height, words, i, j);
      var fbValue := FramebufferWord(l, x + i, y + j);
      assert shown.pixels == PixelsOf(width, words) && Draws(shown, Point(px, py));
      composed := BlendPixel(fbValue, cursorValue, CursorView(l), shown, image, Point(px, py), i, j);
    }

    /** An enabled cursor whose image is mapped, has four bytes a pixel, and all of its rows. */
    predicate Drawable()
      reads this
    {
      && enabled && obj.Some? && obj.value.vmapping.Some? && bytesPerPixel == 4
      && 4 * Times(width, height) <= obj.value.size
    }

    /** Composing turns down exactly the enabled cursors that are not so: no size wraps around. */
    lemma RejectedIff()
      requires Valid()
      ensures Rejected() <==> enabled && !Drawable()
      ensures Drawable() ==> Times(width, height) <= |obj.value.vmapping.value|
    {
      AdmissibleArea(width, height);
      FourRows(width, height);
      assert 4 * Times(width, height) < 0x1_0000_0000;
      Unwrapped(4 * Times(width, height));
    }

    /** Exactly the cursor's pixels that are on the screen become the blend of the framebuffer, as read,
        and the cursor; every other byte of the buffer is as it was. A failing copy leaves only some of
        those pixels blended, and a cursor that is turned down none. */
    method ComposeAndCopy(l: Layout, buffer: array<Byte>, stride: int, ghost shown: CursorPlane.Cursor)
      returns (err: Option<Errno>, ghost done: iset<(int, int)>)
      requires Valid() && Mapped(l) && shown == Shown()
      modifies buffer
      ensures !enabled ==> err.None? && buffer[..] == old(buffer[..])
      ensures Rejected() ==> err == Some(EINVAL) && buffer[..] == old(buffer[..])
      ensures !Rejected() ==> err.None? || err == Some(EFAULT)
      ensures !Rejected() && stride >= 4 * l.fb.width && buffer.Length >= Times(stride, l.fb.height) ==> err.None?
      ensures stride >= 4 * l.fb.width ==>
        Painted(l.fb, buffer[..], old(buffer[..]), stride, done, ComposedPicture(l, shown))
      ensures done <= DrawnBytes(l.fb, shown, shown.height, 0)
      ensures err.None? ==> done == DrawnBytes(l.fb, shown, shown.height, 0)
      ensures Drawable() && stride >= 4 * l.fb.width && buffer.Length >= Times(stride, l.fb.height) ==>
        err.None? && AllBlended(l, buffer[..], stride, obj.value.vmapping.value, x, y, width, height)
      ensures stride >= 4 * l.fb.width && buffer.Length >= Times(stride, l.fb.height) ==>
        OthersUntouched(l, buffer[..], old(buffer[..]), stride, x, y, width, height)
      ensures enabled && !Drawable() ==> err == Some(EINVAL)
    {
      OthersStay(l, buffer[..], buffer[..], stride, shown, iset{});
      RejectedIff();
      var halfWidth: int, halfHeight: int := width / 2, height / 2;
      done := iset{};
      if !enabled {
        NothingDrawn(l.fb, shown, shown.height);
        return None, done;
      }
      if obj.None? {
        return Some(EINVAL), done;
      }
      if obj.value.vmapping.None? {
        return Some(EINVAL), done;
      }
      if bytesPerPixel != 4 {
        return Some(EINVAL), done;
      }
      var bytes := CursorBytes(width, height, bytesPerPixel);
      if bytes > obj.value.size {
        return Some(EINVAL), done;
      }
      var words := obj.value.vmapping.value;
      SizeCheckCovers(width, height, obj.value.size, |words|);
      var ok;
      ghost var was := buffer[..];
      ok, done := ComposeRows(l, buffer, stride, words, halfWidth, halfHeight, shown);
      if Drawable() && stride >= 4 * l.fb.width && buffer.Length >= Times(stride, l.fb.height) {
        PaintedBlends(l, buffer[..], was, stride, shown, words);
      }
      OthersStay(l, buffer[..], was, stride, shown, done);
      err := if ok then None else Some(EFAULT);
    }

    method ComposeRows(l: Layout, buffer: array<Byte>, stride: int, words: seq<Word>, halfWidth: int, halfHeight: int,
                       ghost shown: CursorPlane.Cursor)
      returns (ok: bool, ghost done: iset<(int, int)>)
      requires Valid() && shown == Shown() && enabled && obj.Some? && obj.value.vmapping == Some(words)
      requires bytesPerPixel == 4 && Times(width, height) <= |words| && Mapped(l)
      requires halfWidth == width / 2 && halfHeight == height / 2
      modifies buffer
      ensures stride >= 4 * l.fb.width && buffer.Length >= Times(stride, l.fb.height) ==> ok
      ensures stride >= 4 * l.fb.width ==>
        Painted(l.fb, buffer[..], old(buffer[..]), stride, done, ComposedPicture(l, shown))
      ensures done <= DrawnBytes(l.fb, shown, shown.height, 0)
      ensures ok ==> done == DrawnBytes(l.fb, shown, shown.height, 0)
    {
      ghost var was := buffer[..];
      var y' := 0 - halfHeight;
      assert DrawnBytes(l.fb, shown, 0, 0) == iset{};
      AllDrawn(l.fb, shown);
      while y' < halfHeight
        invariant -halfHeight <= y' <= halfHeight
        invariant DrawnSoFar(l, buffer[..], was, stride, shown, y' + halfHeight, 0)
      {
        ghost var col;
        ok, col := ComposeRow(l, buffer, stride, words, halfWidth, y' + halfHeight, shown, was);
        if !ok {
          done := DrawnBytes(l.fb, shown, y' + halfHeight, col);
          return;
        }
        y' := y' + 1;
      }
      ok, done := true, DrawnBytes(l.fb, shown, Drawn(height), 0);
    }

    /** The inner loop: row `j` of the cursor; on failure, up to column `col`. */
    method ComposeRow(l: Layout, buffer: array<Byte>, stride: int, words: seq<Word>, halfWidth: int, j: nat,
                      ghost shown: CursorPlane.Cursor, ghost was: seq<Byte>)
      returns (ok: bool, ghost col: nat)
      requires Valid() && enabled && obj.Some? && obj.value.vmapping == Some(words) && shown == Shown()
      requires bytesPerPixel == 4 && Times(width, height) <= |words| && Mapped(l)
      requires halfWidth == width / 2 && j < Drawn(height)
      requires DrawnSoFar(l, buffer[..], was, stride, shown, j, 0)
      modifies buffer
      ensures stride >= 4 * l.fb.width && buffer.Length >= Times(stride, l.fb.height) ==> ok
      ensures ok ==> DrawnSoFar(l, buffer[..], was, stride, shown, j + 1, 0)
      ensures !ok ==> DrawnSoFar(l, buffer[..], was, stride, shown, j, col)
    {
      var x' := 0 - halfWidth;
      while x' < halfWidth
        invariant -halfWidth <= x' <= halfWidth
        invariant DrawnSoFar(l, buffer[..], was, stride, shown, j, x' + halfWidth)
      {
        var i := x' + halfWidth;
        var mousePixX := x + i;
        var mousePixY := y + j;
        var isPixSane := mousePixX >= 0 && mousePixY >= 0 && mousePixX < l.fb.width && mousePixY < l.fb.height;
        if isPixSane {
          ghost var before := buffer[..];
          ok := ComposePixel(l, buffer, stride, words, i, j, shown, mousePixX, mousePixY);
          if !ok {
            col := i;
            return;
          }
          OneMoreDrawn(l, before, buffer[..], was, stride, shown, i, j, mousePixX, mousePixY);
        } else {
          PixelDrawn(l.fb, shown, i, j, mousePixX, mousePixY);
        }
        x' := x' + 1;
      }
      RowDrawn(l.fb, shown, j);
      ok, col := true, 0;
    }
  }

  /** The pixel of column `i` and row `j` of a cursor of that width at (x, y): the four bytes at its place on the
      screen are the blend of the framebuffer's word there, as the code reads it, and the cursor's word. */
  ghost predicate BlendedAt(l: Layout, bytes: seq<Byte>, stride: int, words: seq<Word>, x: int, y: int, width: nat,
                            i: nat, j: nat)
  {
    var d := Times(stride, y + j) + 4 * (x + i);
    var r := l.offset + 4 * (Times(l.pitch / 4, y + j) + (x + i));
    var k := Times(width, j) + i;
    && 0 <= d && d + 4 <= |bytes| && 0 <= r && r + 4 <= |l.memory| && 0 <= k < |words|
    && var v := BlendWord(Word(l.memory[r], l.memory[r + 1], l.memory[r + 2], l.memory[r + 3]), words[k]);
    && bytes[d] == v.b0 && bytes[d + 1] == v.b1 && bytes[d + 2] == v.b2 && bytes[d + 3] == v.b3
  }

  /** All of its pixels that are on the screen, but an odd last column and row. */
  ghost predicate AllBlended(l: Layout, bytes: seq<Byte>, stride: int, words: seq<Word>, x: int, y: int, width: nat,
                             height: nat)
  {
    forall i: nat, j: nat :: i < 2 * (width / 2) && j < 2 * (height / 2) && OnScreen(l.fb, x + i, y + j) ==>
      BlendedAt(l, bytes, stride, words, x, y, width, i, j)
  }

  predicate UnderCursor(x: int, y: int, width: nat, height: nat, px: int, py: int) {
    x <= px < x + 2 * (width / 2) && y <= py < y + 2 * (height / 2)
  }

  /** Pixels on the screen that are not the cursor's are as they were. */
  ghost predicate OthersUntouched(l: Layout, now: seq<Byte>, was: seq<Byte>, stride: int, x: int, y: int, width: nat,
                                  height: nat)
  {
    forall px, py :: OnScreen(l.fb, px, py) && !UnderCursor(x, y, width, height, px, py) ==>
      UntouchedAt(now, was, stride, px, py)
  }

  lemma OthersStay(l: Layout, now: seq<Byte>, was: seq<Byte>, stride: int, c: CursorPlane.Cursor,
                   done: iset<(int, int)>)
    requires now == was || stride < 4 * l.fb.width || Painted(l.fb, now, was, stride, done, ComposedPicture(l, c))
    requires done <= DrawnBytes(l.fb, c, c.height, 0)
    ensures stride >= 4 * l.fb.width && |now| >= Times(stride, l.fb.height) ==>
      OthersUntouched(l, now, was, stride, c.x, c.y, c.width, c.height)
  {
    if stride >= 4 * l.fb.width && |now| >= Times(stride, l.fb.height) {
      forall px, py | OnScreen(l.fb, px, py) && !UnderCursor(c.x, c.y, c.width, c.height, px, py)
        ensures UntouchedAt(now, was, stride, px, py)
      {
        RowsInOrder(stride, py, l.fb.height);
        if now != was {
          PixelUntouched(l.fb, now, was, stride, done, ComposedPicture(l, c), px, py);
        }
      }
    }
  }

  lemma PaintedBlends(l: Layout, now: seq<Byte>, was: seq<Byte>, stride: int, c: CursorPlane.Cursor, words: seq<Word>)
    requires Mapped(l) && stride >= 4 * l.fb.width && |now| >= Times(stride, l.fb.height)
    requires Painted(l.fb, now, was, stride, DrawnBytes(l.fb, c, c.height, 0), ComposedPicture(l, c))
    requires c.visible && c.pixels == PixelsOf(c.width, words) && Times(c.width, c.height) <= |words|
    ensures AllBlended(l, now, stride, words, c.x, c.y, c.width, c.height)
  {
    forall i: nat, j: nat | i < 2 * (c.width / 2) && j < 2 * (c.height / 2) && OnScreen(l.fb, c.x + i, c.y + j)
      ensures BlendedAt(l, now, stride, words, c.x, c.y, c.width, i, j)
    {
      PixelBlends(l, now, was, stride, c, words, i, j);
    }
  }

  lemma PixelBlends(l: Layout, now: seq<Byte>, was: seq<Byte>, stride: int, c: CursorPlane.Cursor, words: seq<Word>,
                    i: nat, j: nat)
    requires Mapped(l) && stride >= 4 * l.fb.width && |now| >= Times(stride, l.fb.height)
    requires Painted(l.fb, now, was, stride, DrawnBytes(l.fb, c, c.height, 0), ComposedPicture(l, c))
    requires c.visible && c.pixels == PixelsOf(c.width, words) && Times(c.width, c.height) <= |words|
    requires i < 2 * (c.width / 2) && j < 2 * (c.height / 2) && OnScreen(l.fb, c.x + i, c.y + j)
    ensures BlendedAt(l, now, stride, words, c.x, c.y, c.width, i, j)
  {
    hide Painted, PaintedAt, DrawnBytes, ComposedPicture, BlendWord, Times, CursorView, PixelsOf, Mapped;
    var p := Point(c.x + i, c.y + j);
    EndOfRow(stride, p.x, p.y, l.fb);
    FramebufferReads(l, p);
    CursorReads(c, words, i, j);
    assert ComposedImage(l, c)(p) == BlendWord(CursorView(l)(p), c.pixels(Point(i, j)));
    PaintedByteIs(l, now, was, stride, c, p, 0);
    PaintedByteIs(l, now, was, stride, c, p, 1);
    PaintedByteIs(l, now, was, stride, c, p, 2);
    PaintedByteIs(l, now, was, stride, c, p, 3);
  }

  lemma FramebufferReads(l: Layout, p: Point)
    requires Mapped(l) && OnScreen(l.fb, p.x, p.y)
    ensures var r := l.offset + 4 * (Times(l.pitch / 4, p.y) + p.x);
      && 0 <= r && r + 4 <= |l.memory|
      && CursorView(l)(p) == Word(l.memory[r], l.memory[r + 1], l.memory[r + 2], l.memory[r + 3])
  {
    FramebufferIndex(l, p.x, p.y);
  }

  lemma CursorReads(c: CursorPlane.Cursor, words: seq<Word>, i: nat, j: nat)
    requires c.pixels == PixelsOf(c.width, words) && Times(c.width, c.height) <= |words|
    requires i < 2 * (c.width / 2) && j < 2 * (c.height / 2)
    ensures var k := Times(c.width, j) + i; 0 <= k < |words| && c.pixels(Point(i, j)) == words[k]
  {
    RowsInOrder(c.width, j, c.height);
  }

  lemma PaintedByteIs(l: Layout, now: seq<Byte>, was: seq<Byte>, stride: int, c: CursorPlane.Cursor, p: Point, k: nat)
    requires Painted(l.fb, now, was, stride, DrawnBytes(l.fb, c, c.height, 0), ComposedPicture(l, c))
    requires stride >= 4 * l.fb.width && OnScreen(l.fb, p.x, p.y) && Draws(c, p) && k < 4
    requires 0 <= At(stride, p.y, 4 * p.x) && At(stride, p.y, 4 * p.x) + 4 <= |now|
    ensures now[At(stride, p.y, 4 * p.x) + k] == ByteOf(ComposedImage(l, c)(p), k)
  {
    var b := 4 * p.x + k;
    assert b / 4 == p.x;
    PictureByte(ComposedImage(l, c), p, b, k);
    assert (p.y, b) in DrawnBytes(l.fb, c, c.height, 0);
    assert At(stride, p.y, b) == At(stride, p.y, 4 * p.x) + k;
    assert PaintedAt(l.fb, now, was, stride, DrawnBytes(l.fb, c, c.height, 0), ComposedPicture(l, c), p.y, b);
  }

  /** With a sane stride, the buffer has the first `rows` rows of the cursor drawn and
      `cols` pixels of the next. */
  ghost predicate DrawnSoFar(l: Layout, dst: seq<Byte>, was: seq<Byte>, stride: int, c: CursorPlane.Cursor,
                             rows: int, cols: int)
  {
    stride >= 4 * l.fb.width ==>
      Painted(l.fb, dst, was, stride, DrawnBytes(l.fb, c, rows, cols), ComposedPicture(l, c))
  }

  lemma OneMoreDrawn(l: Layout, before: seq<Byte>, after: seq<Byte>, was: seq<Byte>, stride: int,
                     c: CursorPlane.Cursor, i: nat, j: nat, px: nat, py: nat)
    requires c.visible && i < Drawn(c.width) && j < Drawn(c.height)
    requires px == c.x + i && py == c.y + j && OnScreen(l.fb, px, py)
    requires DrawnSoFar(l, before, was, stride, c, j, i)
    requires PaintsSpan(before, after, stride, py, 4 * px, 4 * px + 4, ComposedPicture(l, c))
    ensures DrawnSoFar(l, after, was, stride, c, j, i + 1)
  {
    if stride >= 4 * l.fb.width {
      PixelDrawn(l.fb, c, i, j, px, py);
      SpanPainted(l.fb, before, after, was, stride, DrawnBytes(l.fb, c, j, i), ComposedPicture(l, c),
                  py, 4 * px, 4 * px + 4);
    }
  }

  lemma PixelDrawn(fb: Framebuffer, c: CursorPlane.Cursor, i: nat, j: nat, px: int, py: int)
    requires c.visible && i < Drawn(c.width) && j < Drawn(c.height)
    requires px == c.x + i && py == c.y + j
    ensures DrawnBytes(fb, c, j, i + 1) ==
      if OnScreen(fb, px, py) then DrawnBytes(fb, c, j, i) + Span(py, 4 * px, 4 * px + 4)
      else DrawnBytes(fb, c, j, i)
  {
  }

  lemma RowDrawn(fb: Framebuffer, c: CursorPlane.Cursor, j: nat)
    ensures DrawnBytes(fb, c, j, Drawn(c.width)) == DrawnBytes(fb, c, j + 1, 0)
  {
  }

  lemma AllDrawn(fb: Framebuffer, c: CursorPlane.Cursor)
    ensures DrawnBytes(fb, c, Drawn(c.height), 0) == DrawnBytes(fb, c, c.height, 0)
  {
  }

  lemma NothingDrawn(fb: Framebuffer, c: CursorPlane.Cursor, rows: nat)
    requires !c.visible
    ensures DrawnBytes(fb, c, rows, 0) == iset{}
  {
  }

  method WritePixel(fb: Framebuffer, buffer: array<Byte>, stride: int, cmdOffset: int, composed: Word,
                    ghost image: Image, ghost px: nat, ghost py: nat)
    returns (ok: bool)
    requires OnScreen(fb, px, py) && cmdOffset == At(stride, py, 4 * px) && composed == image(Point(px, py))
    modifies buffer
    ensures stride >= 4 * fb.width && buffer.Length >= Times(stride, fb.height) ==> ok
    ensures ok ==> PaintsSpan(old(buffer[..]), buffer[..], stride, py, 4 * px, 4 * px + 4, RowsOf(image))
    ensures !ok ==> buffer[..] == old(buffer[..])
  {
    ok := CopyToUser(buffer, cmdOffset, BytesOf(composed), 0, 4);
    if ok {
      SpanIsPixel(old(buffer[..]), buffer[..], image, stride, px, py, composed);
    }
    EndOfRow(stride, px, py, fb);
  }

  lemma EndOfRow(stride: int, px: int, py: int, fb: Framebuffer)
    requires OnScreen(fb, px, py)
    ensures stride >= 4 * fb.width ==>
      0 <= At(stride, py, 4 * px) && At(stride, py, 4 * px) + 4 <= Times(stride, fb.height)
  {
    if stride >= 0 {
      RowsInOrder(stride, py, fb.height);
    }
  }

  /** The size of the cursor's image as the size check computes it. */
  method CursorBytes(width: nat, height: nat, bytesPerPixel: nat) returns (n: nat)
    requires bytesPerPixel == 4
    ensures n == Wrap32(Times(4 * width, height))
  {
    TimesIsProduct(4 * width, height);
    assert width * height * 4 == 4 * width * height;
    n := Wrap32(width * height * bytesPerPixel);
  }

  method CursorWord(width: nat, height: nat, words: seq<Word>, i: nat, j: nat) returns (v: Word)
    requires i < Drawn(width) && j < Drawn(height) && Times(width, height) <= |words|
    ensures v == PixelsOf(width, words)(Point(i, j))
  {
    var cursorPix := CursorOffset(width, i, j);
    RowsInOrder(width, j, height);
    v := words[cursorPix];
  }

  method CursorOffset(width: nat, i: nat, j: nat) returns (at: int)
    ensures at == At(width, j, i)
  {
    TimesIsProduct(width, j);
    at := i + j * width;
  }

  method FramebufferWord(l: Layout, px: nat, py: nat) returns (v: Word)
    requires Mapped(l) && OnScreen(l.fb, px, py)
    ensures v == CursorView(l)(Point(px, py))
  {
    FramebufferIndex(l, px, py);
    v := WordAt(l.memory, l.offset + 4 * ((l.pitch / 4) * py + px));
  }

  method PixelOffset(stride: int, px: nat, py: nat, bytesPerPixel: nat) returns (at: int)
    requires bytesPerPixel == 4
    ensures at == At(stride, py, 4 * px)
  {
    TimesIsProduct(stride, py);
    at := stride * py + px * bytesPerPixel;
  }

  method BlendPixel(fbValue: Word, cursorValue: Word, ghost fb: Image, ghost c: CursorPlane.Cursor, ghost image: Image,
                    ghost p: Point, ghost i: nat, ghost j: nat)
    returns (composed: Word)
    requires Draws(c, p) && p.x - c.x == i && p.y - c.y == j
    requires fb(p) == fbValue && c.pixels(Point(i, j)) == cursorValue && image(p) == Composed(fb, c, p)
    ensures composed == image(p)
  {
    composed := BlendWord(fbValue, cursorValue);
  }

  lemma PictureByte(image: Image, p: Point, b: int, k: int)
    requires b == 4 * p.x + k && 0 <= k < 4
    ensures RowsOf(image)(p.y, b) == ByteOf(image(p), k)
  {
    assert b / 4 == p.x && b % 4 == k;
  }

  lemma SpanIsPixel(was: seq<Byte>, now: seq<Byte>, image: Image, stride: int, px: nat, py: nat, v: Word)
    requires v == image(Point(px, py))
    requires |now| == |was|
    requires forall i :: 0 <= i < |now| ==>
      now[i] == if At(stride, py, 4 * px) <= i < At(stride, py, 4 * px) + 4
                then BytesOf(v)[i - At(stride, py, 4 * px)] else was[i]
    ensures PaintsSpan(was, now, stride, py, 4 * px, 4 * px + 4, RowsOf(image))
  {
    var p := Point(px, py);
    PictureByte(image, p, 4 * px, 0);
    PictureByte(image, p, 4 * px + 1, 1);
    PictureByte(image, p, 4 * px + 2, 2);
    PictureByte(image, p, 4 * px + 3, 3);
    SpanFromBytes(was, now, stride, py, 4 * px, v, RowsOf(image));
  }

  lemma SpanFromBytes(was: seq<Byte>, now: seq<Byte>, stride: int, y: int, c: int, v: Word, picture: Picture)
    requires |now| == |was|
    requires forall i :: 0 <= i < |now| ==>
      now[i] == if At(stride, y, c) <= i < At(stride, y, c) + 4 then BytesOf(v)[i - At(stride, y, c)] else was[i]
    requires picture(y, c) == v.b0 && picture(y, c + 1) == v.b1
    requires picture(y, c + 2) == v.b2 && picture(y, c + 3) == v.b3
    ensures PaintsSpan(was, now, stride, y, c, c + 4, picture)
  {
    forall i | 0 <= i < |now|
      ensures now[i] == if At(stride, y, c) <= i < At(stride, y, c + 4)
                         then picture(y, i - Times(stride, y)) else was[i]
    {
      var k := i - At(stride, y, c);
      assert i - Times(stride, y) == c + k;
      if 0 <= k < 4 {
        assert k == 0 || k == 1 || k == 2 || k == 3;
      }
    }
  }

  lemma {:induction false} AdmissibleArea(width: nat, height: nat)
    requires width <= MAX_WIDTH && height <= MAX_HEIGHT
    ensures 0 <= Times(width, height) <= MAX_WIDTH * MAX_HEIGHT
  {
    TimesIsProduct(MAX_WIDTH, MAX_HEIGHT);
    TimesMonotone(width, height, MAX_WIDTH, height);
    if height < MAX_HEIGHT {
      RowsInOrder(MAX_WIDTH, height, MAX_HEIGHT);
    }
  }

  /** The size check is not fooled by 32-bit wrap-around: with an admissible size it means that all
      rows of the cursor are in its image, so every index read stays inside. */
  lemma SizeCheckCovers(width: nat, height: nat, size: nat, words: nat)
    requires width <= MAX_WIDTH && height <= MAX_HEIGHT
    requires Wrap32(Times(4 * width, height)) <= size && 4 * words >= size - 3
    ensures Times(width, height) <= words
  {
    AdmissibleArea(width, height);
    FourRows(width, height);
    NoWrap(Times(width, height), size);
  }

  lemma NoWrap(area: nat, size: nat)
    requires area <= MAX_WIDTH * MAX_HEIGHT && Wrap32(area * 4) <= size
    ensures 4 * area <= size
  {
  }

  /** The word the code reads lies in the object; it is the pixel's own exactly when the pitch is a
      whole number of words, or in the first row. */
  lemma FramebufferIndex(l: Layout, px: nat, py: nat)
    requires Mapped(l) && OnScreen(l.fb, px, py)
    ensures var source := l.offset + 4 * ((l.pitch / 4) * py + px);
      && source == ReadIndex(l, Point(px, py))
      && 0 <= source && source + 4 <= |l.memory|
      && (source == l.offset + At(l.pitch, py, 4 * px) <==> l.pitch % 4 == 0 || py == 0)
  {
    var quarter := l.pitch / 4;
    TimesIsProduct(quarter, py);
    FourRows(quarter, py);
    TimesMonotone(4 * quarter, py, l.pitch, py);
    RowsInOrder(l.pitch, py, l.fb.height);
    if py > 0 && l.pitch % 4 != 0 {
      NarrowerRows(4 * quarter, l.pitch, py);
    }
  }

  lemma {:induction false} NarrowerRows(a: nat, b: nat, n: nat)
    requires a < b && n > 0
    ensures Times(a, n) < Times(b, n)
  {
    TimesMonotone(a, n - 1, b, n - 1);
  }

  /** So with a pitch of whole words the picture blended is the framebuffer's. */
  lemma CursorViewIsPicture(l: Layout, p: Point)
    requires Mapped(l) && OnScreen(l.fb, p.x, p.y) && (l.pitch % 4 == 0 || p.y == 0)
    ensures CursorView(l)(p) == ImageOf(l)(p)
  {
    FramebufferIndex(l, p.x, p.y);
  }

  lemma TransparentDiffers(a: Image, b: Image, c: CursorPlane.Cursor, p: Point)
    requires Draws(c, p) && c.pixels(Point(p.x - c.x, p.y - c.y)) == ZERO && a(p).b0 != b(p).b0
    ensures Composed(a, c, p) != Composed(b, c, p)
  {
    TransparentKeeps(a(p), ZERO);
    TransparentKeeps(b(p), ZERO);
  }

  /** A screen 64 pixels wide, in rows of 258 bytes: the second row is read two bytes too early. */
  function OddRows(): Layout {
    Layout(Framebuffer(1, 64, 64, 0), 0, 258, seq(258 * 64, i => if 258 <= i < 262 then 9 else 0))
  }

  lemma OddRowsViews()
    ensures Mapped(OddRows())
    ensures CursorView(OddRows())(Point(0, 1)) == Word(0, 0, 9, 9)
    ensures ImageOf(OddRows())(Point(0, 1)) == Word(9, 9, 9, 9)
  {
    TimesIsProduct(258, 1);
    TimesIsProduct(258, 64);
    TimesIsProduct(64, 1);
  }

  /** With a pitch that is not a whole number of words a wrong pixel may be drawn. */
  lemma MisalignedPitchMisreads()
    ensures exists l: Layout, c: CursorPlane.Cursor, p: Point ::
      && Mapped(l) && OnScreen(l.fb, p.x, p.y) && Draws(c, p)
      && Composed(CursorView(l), c, p) != Composed(ImageOf(l), c, p)
  {
    var c: CursorPlane.Cursor := CursorPlane.Cursor(true, 0, 0, 64, 64, (_: Point) => ZERO);
    OddRowsViews();
    TransparentDiffers(CursorView(OddRows()), ImageOf(OddRows()), c, Point(0, 1));
    assert Draws(c, Point(0, 1)) && OnScreen(OddRows().fb, 0, 1);
  }

  lemma {:induction false} FourRows(quarter: nat, n: nat)
    ensures Times(4 * quarter, n) == 4 * Times(quarter, n)
  {
    if n > 0 {
      FourRows(quarter, n - 1);
    }
  }
}
