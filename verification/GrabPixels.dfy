/** The whole grab, from the painter's list to the client's bytes. */
module GrabPixels {
  import opened Arithmetic
  import opened Wrappers
  import opened Rects
  import opened DirtyRects
  import opened Blend
  import opened PainterModel
  import opened Memory
  import opened CursorPlane
  import opened Cursor
  import opened GrabCopy
  import Mirror
  import Painter

  /** The snapshot, then outside the lock the checks and the copy, and the completion of the vblank that
      was held, whether or not the copy worked. `mapped`, `delivered` and `accessible` say whether mapping
      the framebuffer, copying the rectangles to the client, and access to an imported buffer succeed.
      `count` is what the client is told, `rects` what it was given. */
  method GrabPixIoctl(painter: Painter.Painter, l: Layout, cursor: EvdiCursor, cursorEvents: bool, numRects: int,
                      buffer: array<Byte>, stride: int, bufWidth: int, bufHeight: int,
                      mapped: bool, delivered: bool, accessible: bool)
    returns (err: Option<Errno>, count: int, rects: seq<Rect>)
    requires painter.Valid() && cursor.Valid() && Mapped(l)
    requires painter.scanoutFb.Some? ==> painter.scanoutFb.value == l.fb
    modifies painter, painter.dirtyRects, buffer
    ensures painter.Valid()
    ensures var (q, grab) := TakeSnapshot(old(painter.Abs()), numRects);
      match grab
      case Refused(e) =>
        && painter.Abs() == q && err == Some(e) && rects == []
        && count == (if numRects < 1 then numRects else |q.dirts|)
        && buffer[..] == old(buffer[..])
      case Snapshot(_, snapshot, crtc, vblank) =>
        && painter.Abs() == q.(completed := q.completed + Sent(crtc, vblank)) && count == |snapshot|
        && rects == (if mapped && bufWidth == l.fb.width && bufHeight == l.fb.height && delivered then snapshot else [])
    ensures numRects < 1 ==> err == Some(EINVAL) && painter.Abs() == old(painter.Abs())
    ensures numRects >= 1 && painter.scanoutFb.None? ==> err == Some(EAGAIN) && painter.vblank == old(painter.vblank)
    ensures numRects >= 1 && painter.scanoutFb.Some? ==>
      && painter.numDirts == 0 && painter.vblank.None?
      && painter.completed == old(painter.completed) + Sent(old(painter.crtc), old(painter.vblank))
    ensures TakeSnapshot(old(painter.Abs()), numRects).1.Snapshot? ==>
      GrabResult(l, old(painter.Abs()).dirts, err, rects, old(buffer[..]), buffer[..], stride, bufWidth, bufHeight,
                 mapped, delivered && accessible, DrawnCursor(cursor, cursorEvents))
    ensures err.None? ==> count == |rects| <= numRects && Summarises(rects, old(painter.dirtyRects[..painter.numDirts]))
    ensures err.None? && Roomy(l.fb, buffer.Length, stride) ==>
      GrabbedBytes(l, buffer[..], old(buffer[..]), stride, rects, !cursorEvents && cursor.Drawable(), WordsOf(cursor),
                   cursor.x, cursor.y, cursor.width, cursor.height)
  {
    rects := [];
    SnapshotFits(painter.Abs(), numRects, l.fb.width, l.fb.height);
    ghost var dirts := painter.Abs().dirts;
    hide GrabResult, GrabbedBytes, AllFit, Taken, Summarises, DrawnCursor, WordsOf, Mapped;
    var grab := painter.TakeSnapshot(numRects);
    if grab.Refused? {
      err, count := Some(grab.error), if numRects < 1 then numRects else painter.numDirts;
      return;
    }
    count := |grab.rects|;
    err, rects := CopyOut(l, cursor, cursorEvents, buffer, stride, bufWidth, bufHeight, mapped, delivered,
                          accessible, grab.rects, dirts);
    painter.CompleteVblank(grab.crtc, grab.vblank);
  }

  /** What the grab does outside the lock before it completes the vblank. */
  method CopyOut(l: Layout, cursor: EvdiCursor, cursorEvents: bool, buffer: array<Byte>, stride: int,
                 bufWidth: int, bufHeight: int, mapped: bool, delivered: bool, accessible: bool,
                 snapshot: seq<Rect>, ghost dirts: seq<Rect>)
    returns (err: Option<Errno>, rects: seq<Rect>)
    requires cursor.Valid() && Mapped(l) && AllFit(snapshot, MAX_WIDTH, MAX_HEIGHT)
    requires AllFit(snapshot, l.fb.width, l.fb.height) <==> AllFit(dirts, l.fb.width, l.fb.height)
    modifies buffer
    ensures rects ==
      (if mapped && bufWidth == l.fb.width && bufHeight == l.fb.height && delivered then snapshot else [])
    ensures err.None? ==> rects == snapshot
    ensures GrabResult(l, dirts, err, rects, old(buffer[..]), buffer[..], stride, bufWidth, bufHeight, mapped,
                       delivered && accessible, DrawnCursor(cursor, cursorEvents))
    ensures err.None? && Roomy(l.fb, buffer.Length, stride) ==>
      GrabbedBytes(l, buffer[..], old(buffer[..]), stride, rects, !cursorEvents && cursor.Drawable(), WordsOf(cursor),
                   cursor.x, cursor.y, cursor.width, cursor.height)
  {
    rects := [];
    if !mapped {
      err := Some(EFAULT);
    } else if bufWidth != l.fb.width || bufHeight != l.fb.height {
      err := Some(EINVAL);
    } else if !delivered {
      err := Some(EFAULT);
    } else {
      rects := snapshot;
      if !accessible {
        err := Some(EFAULT);
      } else {
        err := CopyGrabbed(l, cursor, cursorEvents, buffer, stride, rects);
      }
    }
  }

  /** What a grab that took a snapshot of `dirts` returns and does to the buffer. In particular, when all
      else is in order, it fails with EFAULT exactly when a recorded rectangle exceeds the framebuffer, as
      one may after a swap to a smaller one. */
  ghost predicate GrabResult(l: Layout, dirts: seq<Rect>, err: Option<Errno>, rects: seq<Rect>, was: seq<Byte>,
                             now: seq<Byte>, stride: int, bufWidth: int, bufHeight: int, mapped: bool, reachable: bool,
                             shown: CursorPlane.Cursor)
  {
    if !mapped then err == Some(EFAULT) && now == was
    else if bufWidth != l.fb.width || bufHeight != l.fb.height then err == Some(EINVAL) && now == was
    else if !reachable then err == Some(EFAULT) && now == was
    else
      && (err.None? || err == Some(EFAULT))
      && (err.None? ==> AllFit(dirts, l.fb.width, l.fb.height))
      && (Roomy(l.fb, |was|, stride) && AllFit(dirts, l.fb.width, l.fb.height) ==> err.None?)
      && (Roomy(l.fb, |was|, stride) && err.None? ==> Grabbed(l, now, was, stride, rects, shown))
      && (stride >= 4 * l.fb.width && err.Some? ==> PartlyGrabbed(l, now, was, stride, rects))
  }

  lemma SnapshotFits(p: PainterState, numRects: int, width: int, height: int)
    requires AllFit(p.dirts, MAX_WIDTH, MAX_HEIGHT)
    ensures var (_, grab) := TakeSnapshot(p, numRects);
      grab.Snapshot? ==>
        && AllFit(grab.rects, MAX_WIDTH, MAX_HEIGHT) && grab.rects == Taken(p.dirts, numRects)
        && (AllFit(grab.rects, width, height) <==> AllFit(p.dirts, width, height))
  {
    if numRects >= 1 {
      TakenCovers(p.dirts, numRects);
      TakenFitsIff(p.dirts, numRects, width, height);
    }
  }

  /** The painter's locked sections do to its list what the pixel by pixel model says of marks and snapshots. */
  lemma MirrorIsPainter(s: Mirror.State, p: PainterState, rect: Rect, numRects: int)
    requires p.scanout == Some(s.screen) && p.dirts == s.dirts && |p.dirts| <= MAX_DIRTS && numRects >= 1
    ensures Mirror.Step(s, Mirror.Mark(rect)).dirts == MarkDirty(p, rect).dirts
    ensures s.grab.Idle? ==>
      var t, (q, grab) := Mirror.Step(s, Mirror.StartGrab(numRects)), TakeSnapshot(p, numRects);
      t.dirts == q.dirts == [] && grab.Snapshot? && t.grab == Mirror.Copying(grab.rects, iset{})
  {
  }

  /** The client's bytes show what `s` says its buffer holds, and the object what `s` says is on the
      framebuffer. */
  ghost predicate Shows(s: Mirror.State, l: Layout, bytes: seq<Byte>, stride: int) {
    && l.fb == s.screen && Roomy(l.fb, |bytes|, stride)
    && forall p: Point :: OnScreen(l.fb, p.x, p.y) ==> ImageOf(l)(p) == s.fb(p) && Holds(bytes, stride, p, s.client(p))
  }

  ghost predicate Holds(bytes: seq<Byte>, stride: int, p: Point, v: Word) {
    0 <= At(stride, p.y, 4 * p.x) && At(stride, p.y, 4 * p.x) + 4 <= |bytes| && PixelAt(bytes, stride, p) == v
  }

  /** End to end: if the client's bytes and the pending list are as the mirror invariant has them,
      with nothing left to report, then after a grab that is not interrupted every pixel on the screen
      has in the client's bytes the ideal picture's value: the framebuffer, with the cursor blended at
      its position if the client takes no cursor events. The pitch is a whole number of words. */
  lemma GrabMakesIdeal(s: Mirror.State, l: Layout, was: seq<Byte>, now: seq<Byte>, stride: int, numRects: int,
                       shown: CursorPlane.Cursor, p: Point)
    requires Mirror.Mirrored(s) && Mirror.AllReported(s) && numRects >= 1 && Shows(s, l, was, stride)
    requires l.pitch % 4 == 0 && Mapped(l)
    requires shown == s.cursor.(visible := s.cursor.visible && s.softCursor)
    requires Grabbed(l, now, was, stride, Taken(s.dirts, numRects), shown)
    requires OnScreen(l.fb, p.x, p.y)
    ensures Holds(now, stride, p, Mirror.Ideal(s, p))
  {
    TakenCovers(s.dirts, numRects);
    var rects := Taken(s.dirts, numRects);
    assert GrabbedAt(l, now, was, stride, rects, shown, p);
    assert Mirror.Faithful(s, p);
    assert Holds(was, stride, p, s.client(p));
    CursorViewIsPicture(l, p);
    IdealWhereGrabbed(s, shown, CursorView(l), rects, p);
  }

  /** What a grab leaves at a pixel is the ideal picture's value, if the pixel was up to date or taken. */
  lemma IdealWhereGrabbed(s: Mirror.State, shown: CursorPlane.Cursor, view: Image, rects: seq<Rect>, p: Point)
    requires Mirror.WellFormed(s) && s.update.None? && view(p) == s.fb(p)
    requires shown == s.cursor.(visible := s.cursor.visible && s.softCursor)
    requires s.client(p) != Mirror.Ideal(s, p) ==> Covered(rects, p.x, p.y)
    ensures Mirror.Ideal(s, p) ==
      if Draws(shown, p) then Composed(view, shown, p) else if Covered(rects, p.x, p.y) then s.fb(p) else s.client(p)
  {
    assert Draws(shown, p) == Mirror.SoftDraws(s, p);
  }
}
