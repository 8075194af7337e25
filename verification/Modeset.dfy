/** The atomic-commit callbacks of the two planes: what a flip and a cursor update make of the
    painter, and how much of the damage they are told of reaches its list. */
module Modeset {
  import opened Wrappers
  import opened Rects
  import opened DirtyRects
  import opened Events
  import opened PainterModel
  import CursorPlane
  import Cursor
  import Mirror
  import Painter

  // ---- The primary plane ----

  /** The part of a plane's state the update looks at. */
  datatype Plane = Plane(crtc: Option<nat>, fb: Option<Framebuffer>)

  function MarkAll(p: PainterState, clips: seq<Rect>): (q: PainterState)
    requires |p.dirts| <= MAX_DIRTS
    ensures |q.dirts| <= MAX_DIRTS
  {
    if clips == [] then p
    else
      var stem := MarkAll(p, clips[..|clips| - 1]);
      MarkGrows(stem, clips[|clips| - 1]);
      MarkDirty(stem, clips[|clips| - 1])
  }

  function NotifyCrtc(p: PainterState, console: int, was: Plane, now: Plane): PainterState {
    if was.crtc.None? && now.crtc.Some? then DpmsNotify(p, console, DPMS_ON)
    else if was.crtc.Some? && now.crtc.None? then DpmsNotify(p, console, DPMS_OFF)
    else p
  }

  /** A first framebuffer and a change of format each call for a full modeset. */
  predicate ForcesModeset(was: Plane, now: Plane) {
    now.fb.Some? &&
    if was.fb.None? then now.crtc.Some? else was.fb.value.format != now.fb.value.format
  }

  /** Whether the update installs its framebuffer and reports its damage clips at all. */
  predicate Installs(p: PainterState, was: Plane, now: Plane) {
    now.fb.Some? && (was.fb.None? || now.fb.value != was.fb.value || p.needsModeset || ForcesModeset(was, now))
  }

  /** The scanout and the list just before the update looks whether any damage is recorded. */
  function Installed(p: PainterState, was: Plane, now: Plane, clips: seq<Rect>): (q: PainterState)
    requires |p.dirts| <= MAX_DIRTS
    ensures |q.dirts| <= MAX_DIRTS
  {
    var forced := if ForcesModeset(was, now) then p.(needsModeset := true) else p;
    if Installs(p, was, now) then MarkAll(forced.(scanout := now.fb), clips) else forced
  }

  function PlaneUpdate(p: PainterState, console: int, was: Plane, now: Plane, clips: seq<Rect>): PainterState
    requires |p.dirts| <= MAX_DIRTS
  {
    var notified := NotifyCrtc(p, console, was, now);
    if now.fb.None? then notified
    else
      var q := Installed(notified, was, now, clips);
      if q.dirts == [] then MarkDirty(q, Full(now.fb.value)) else q
  }

  method PlaneAtomicUpdate(painter: Painter.Painter, console: int, was: Plane, now: Plane, clips: seq<Rect>)
    requires painter.Valid()
    modifies painter, painter.dirtyRects
    ensures painter.Valid() && painter.Abs() == PlaneUpdate(old(painter.Abs()), console, was, now, clips)
  {
    if was.crtc.None? && now.crtc.Some? {
      painter.DpmsNotify(console, DPMS_ON);
    } else if was.crtc.Some? && now.crtc.None? {
      painter.DpmsNotify(console, DPMS_OFF);
    }
    if now.fb.None? {
      return;
    }
    Install(painter, was, now, clips);
    if painter.numDirts == 0 {
      painter.MarkDirty(Full(now.fb.value));
    }
  }

  method Install(painter: Painter.Painter, was: Plane, now: Plane, clips: seq<Rect>)
    requires painter.Valid() && now.fb.Some?
    modifies painter, painter.dirtyRects
    ensures painter.Valid() && painter.Abs() == Installed(old(painter.Abs()), was, now, clips)
  {
    var fb := now.fb.value;
    if was.fb.None? && now.crtc.Some? {
      painter.ForceFullModeset();
    }
    if was.fb.Some? && fb.format != was.fb.value.format {
      painter.ForceFullModeset();
    }
    if was.fb.None? || fb != was.fb.value || painter.needsFullModeset {
      painter.SetScanoutBuffer(Some(fb));
      MarkClips(painter, clips);
    }
  }

  method MarkClips(painter: Painter.Painter, clips: seq<Rect>)
    requires painter.Valid()
    modifies painter, painter.dirtyRects
    ensures painter.Valid() && painter.Abs() == MarkAll(old(painter.Abs()), clips)
  {
    ghost var p := painter.Abs();
    var k := 0;
    while k < |clips|
      invariant k <= |clips| && painter.Valid() && painter.Abs() == MarkAll(p, clips[..k])
    {
      assert clips[..k + 1][..k] == clips[..k];
      painter.MarkDirty(clips[k]);
      k := k + 1;
    }
    assert clips[..k] == clips;
  }

  // ---- What the flip records ----

  lemma MarkGrows(p: PainterState, rect: Rect)
    requires |p.dirts| <= MAX_DIRTS
    ensures |MarkDirty(p, rect).dirts| <= MAX_DIRTS
    ensures p.scanout.Some? || p.dirts != [] ==> MarkDirty(p, rect).dirts != []
  {
  }

  /** The part of a clip that is on the screen. */
  predicate Clipped(fb: Framebuffer, clip: Rect, x: int, y: int) {
    Inside(Sanitized(fb, clip), x, y)
  }

  ghost predicate Recorded(dirts: seq<Rect>, fb: Framebuffer, clips: seq<Rect>) {
    forall k, x, y :: 0 <= k < |clips| && Clipped(fb, clips[k], x, y) ==> Covered(dirts, x, y)
  }

  lemma MarkRecords(p: PainterState, clip: Rect, x: int, y: int)
    requires |p.dirts| <= MAX_DIRTS
    requires Covered(p.dirts, x, y) || (p.scanout.Some? && Clipped(p.scanout.value, clip, x, y))
    ensures Covered(MarkDirty(p, clip).dirts, x, y)
  {
    if p.scanout.Some? {
      MarkedCovers(p.dirts, Sanitized(p.scanout.value, clip));
    }
  }

  lemma {:induction false} MarkAllRecords(p: PainterState, clips: seq<Rect>, k: int, x: int, y: int)
    requires |p.dirts| <= MAX_DIRTS && p.scanout.Some?
    requires Covered(p.dirts, x, y) || (0 <= k < |clips| && Clipped(p.scanout.value, clips[k], x, y))
    ensures Covered(MarkAll(p, clips).dirts, x, y)
    decreases |clips|
  {
    if clips != [] {
      var n := |clips| - 1;
      MarkAllKeeps(p, clips[..n]);
      if Covered(p.dirts, x, y) || k < n {
        MarkAllRecords(p, clips[..n], k, x, y);
      }
      MarkRecords(MarkAll(p, clips[..n]), clips[n], x, y);
    }
  }

  lemma {:induction false} MarkAllKeeps(p: PainterState, clips: seq<Rect>)
    requires |p.dirts| <= MAX_DIRTS
    ensures var q := MarkAll(p, clips); q == p.(dirts := q.dirts)
    ensures p.scanout.Some? && (p.dirts != [] || clips != []) ==> MarkAll(p, clips).dirts != []
    decreases |clips|
  {
    if clips != [] {
      MarkAllKeeps(p, clips[..|clips| - 1]);
      MarkGrows(MarkAll(p, clips[..|clips| - 1]), clips[|clips| - 1]);
    }
  }

  /** A framebuffer on the plane is the painter's scanout, or the client has disconnected since it
      was installed. */
  predicate ScanoutIsPlanes(p: PainterState, plane: Plane) {
    plane.fb.Some? ==> p.scanout.None? || p.scanout.value == plane.fb.value
  }

  /** The update keeps that so, and with a scanout it always leaves damage for the client to grab. */
  lemma PlaneUpdateKeepsScanout(p: PainterState, console: int, was: Plane, now: Plane, clips: seq<Rect>)
    requires |p.dirts| <= MAX_DIRTS && ScanoutIsPlanes(p, was)
    ensures var q := PlaneUpdate(p, console, was, now, clips);
      && |q.dirts| <= MAX_DIRTS
      && ScanoutIsPlanes(q, now)
      && (now.fb.Some? && q.scanout.Some? ==> q.dirts != [])
  {
    if now.fb.Some? {
      var p1 := NotifyCrtc(p, console, was, now);
      InstalledKeeps(p1, was, now, clips);
      MarkGrows(Installed(p1, was, now, clips), Full(now.fb.value));
    }
  }

  lemma InstalledKeeps(p: PainterState, was: Plane, now: Plane, clips: seq<Rect>)
    requires |p.dirts| <= MAX_DIRTS && now.fb.Some?
    ensures Installed(p, was, now, clips).scanout == if Installs(p, was, now) then now.fb else p.scanout
  {
    var forced := if ForcesModeset(was, now) then p.(needsModeset := true) else p;
    MarkAllKeeps(forced.(scanout := now.fb), clips);
  }

  /** What a flip finds: a framebuffer other than the plane's, and a full modeset owed already, or called for by a
      first framebuffer on a crtc or another format. */
  predicate NewBuffer(was: Plane, now: Plane) {
    now.fb.Some? && (was.fb.None? || was.fb != now.fb)
  }

  predicate FullModeset(p: PainterState, was: Plane, now: Plane) {
    || p.needsModeset
    || (was.fb.None? && now.fb.Some? && now.crtc.Some?)
    || (was.fb.Some? && now.fb.Some? && was.fb.value.format != now.fb.value.format)
  }

  /** The scanout after a flip is its framebuffer exactly when that is new, a full modeset is owed, or it was
      the scanout already; in the first two cases all of its damage is recorded. A modeset the flip calls for
      is owed afterwards. */
  lemma FlipInstallsIff(p: PainterState, console: int, was: Plane, now: Plane, clips: seq<Rect>)
    requires |p.dirts| <= MAX_DIRTS && now.fb.Some?
    ensures var q := PlaneUpdate(p, console, was, now, clips);
      && (q.scanout == now.fb <==> NewBuffer(was, now) || FullModeset(p, was, now) || p.scanout == now.fb)
      && (q.scanout == now.fb || q.scanout == p.scanout)
      && (NewBuffer(was, now) || FullModeset(p, was, now) ==>
            Recorded(q.dirts, now.fb.value, clips) && q.dirts != [])
      && (q.needsModeset <==> FullModeset(p, was, now))
  {
    var p1 := NotifyCrtc(p, console, was, now);
    InstalledKeeps(p1, was, now, clips);
    FlagAfterInstall(p1, was, now, clips);
    MarkGrows(Installed(p1, was, now, clips), Full(now.fb.value));
    if NewBuffer(was, now) || FullModeset(p, was, now) {
      InstalledRecords(p, console, was, now, clips);
    }
  }

  lemma FlagAfterInstall(p: PainterState, was: Plane, now: Plane, clips: seq<Rect>)
    requires |p.dirts| <= MAX_DIRTS && now.fb.Some?
    ensures Installed(p, was, now, clips).needsModeset <==> FullModeset(p, was, now)
  {
    var forced := if ForcesModeset(was, now) then p.(needsModeset := true) else p;
    MarkAllKeeps(forced.(scanout := now.fb), clips);
  }

  /** A plane that gets a crtc tells the client DPMS ON, 0 in DRM's numbering, one that loses its crtc OFF, 3. */
  lemma FlipTellsDpms(p: PainterState, console: int, was: Plane, now: Plane, clips: seq<Rect>)
    requires |p.dirts| <= MAX_DIRTS && p.connected && p.filp.Some?
    ensures PlaneUpdate(p, console, was, now, clips).queue.accepted == p.queue.accepted +
      if was.crtc.None? && now.crtc.Some? then [Dpms(0)]
      else if was.crtc.Some? && now.crtc.None? then [Dpms(3)] else []
  {
    var p1 := NotifyCrtc(p, console, was, now);
    var forced := if ForcesModeset(was, now) then p1.(needsModeset := true) else p1;
    MarkAllKeeps(forced.(scanout := now.fb), clips);
  }

  /** A flip records all of its damage exactly when it installs its framebuffer, or finds the list
      empty and so reports the whole screen, or all of it was recorded already. What the code drops
      is the damage of a flip to the same framebuffer while other damage is pending. */
  lemma FlipRecordsDamageIff(p: PainterState, console: int, was: Plane, now: Plane, clips: seq<Rect>)
    requires |p.dirts| <= MAX_DIRTS && ScanoutIsPlanes(p, was) && now.fb.Some?
    ensures Recorded(PlaneUpdate(p, console, was, now, clips).dirts, now.fb.value, clips) <==>
      || Installs(p, was, now)
      || (p.dirts == [] && p.scanout.Some?)
      || Recorded(p.dirts, now.fb.value, clips)
  {
    var fb := now.fb.value;
    var p3 := Installed(NotifyCrtc(p, console, was, now), was, now, clips);
    var q := PlaneUpdate(p, console, was, now, clips);
    if Installs(p, was, now) {
      InstalledRecords(p, console, was, now, clips);
    } else if p.dirts == [] && p.scanout.Some? {
      forall k, x, y | 0 <= k < |clips| && Clipped(fb, clips[k], x, y)
        ensures Covered(q.dirts, x, y)
      {
        MarkRecords(p3, Full(fb), x, y);
      }
    } else {
      assert q.dirts == p.dirts;
    }
  }

  lemma InstalledRecords(p: PainterState, console: int, was: Plane, now: Plane, clips: seq<Rect>)
    requires |p.dirts| <= MAX_DIRTS && Installs(p, was, now)
    ensures Recorded(PlaneUpdate(p, console, was, now, clips).dirts, now.fb.value, clips)
  {
    var p1 := NotifyCrtc(p, console, was, now);
    var forced := if ForcesModeset(was, now) then p1.(needsModeset := true) else p1;
    forall k, x, y | 0 <= k < |clips| && Clipped(now.fb.value, clips[k], x, y)
      ensures Covered(PlaneUpdate(p, console, was, now, clips).dirts, x, y)
    {
      MarkAllRecords(forced.(scanout := now.fb), clips, k, x, y);
      assert Covered(Installed(p1, was, now, clips).dirts, x, y);
    }
  }

  /** Such a flip: the screen's lower right corner changed while its upper left was pending. */
  lemma SameBufferFlipDropsDamage()
    ensures exists p: PainterState, plane: Plane, clips: seq<Rect> ::
      && |p.dirts| <= MAX_DIRTS && plane.fb.Some? && p.scanout == plane.fb
      && !Recorded(PlaneUpdate(p, 0, plane, plane, clips).dirts, plane.fb.value, clips)
  {
    var fb := Framebuffer(1, 64, 64, 0);
    var p := FRESH.(needsModeset := false, scanout := Some(fb), dirts := [Rect(0, 0, 8, 8)]);
    var plane, clips := Plane(Some(0), Some(fb)), [Rect(32, 32, 64, 64)];
    assert Clipped(fb, clips[0], 40, 40) && !Covered(p.dirts, 40, 40);
    assert PlaneUpdate(p, 0, plane, plane, clips) == p;
  }

  // ---- The cursor plane ----

  datatype CursorFb = CursorFb(id: nat, width: nat, height: nat, format: nat, bytesPerPixel: nat,
                               gem: Option<Cursor.Gem>, rectUpdates: bool)

  datatype CursorState = CursorState(x: int, y: int, w: nat, h: nat, fb: Option<CursorFb>)

  /** Filled in through a pointer in the C code. */
  function CursorGetRect(st: CursorState): Rect {
    CursorPlane.CursorRect(st.x, st.y, st.w, st.h)
  }

  function FramebufferSize(p: PainterState): Rect {
    if p.scanout.Some? then Full(p.scanout.value) else Rect(0, 0, 0, 0)
  }

  /** What is reported for a client that takes no cursor events. */
  function CursorDamage(p: PainterState, was: CursorState, now: CursorState): PainterState
    requires |p.dirts| <= MAX_DIRTS
  {
    if now.fb.None? then p
    else if now.fb.value.rectUpdates then
      MarkGrows(p, CursorGetRect(was));
      MarkDirty(MarkDirty(p, CursorGetRect(was)), CursorGetRect(now))
    else MarkDirty(p, FramebufferSize(p))
  }

  /** What is sent to a client that takes them. */
  function CursorNews(p: PainterState, shape: Option<CursorShape>, position: Option<CursorPlane.Point>): PainterState {
    var q := if shape.Some? then SendEvent(p, CursorSet(shape.value)) else p;
    if position.Some? then SendEvent(q, CursorMove(position.value.x, position.value.y)) else q
  }

  function FbId(st: CursorState): Option<nat> {
    if st.fb.Some? then Some(st.fb.value.id) else None
  }

  predicate FbChanged(was: CursorState, now: CursorState) {
    was.fb.Some? != now.fb.Some? || (now.fb.Some? && was.fb.value.id != now.fb.value.id)
  }

  /** `handle` is the client's handle for the cursor's image, 0 if it could be given none. */
  function ShapeOf(cursor: Cursor.EvdiCursor, handle: nat): CursorShape
    reads cursor
  {
    var h := if cursor.obj.Some? then handle else 0;
    CursorShape(cursor.enabled && h != 0, cursor.hotX, cursor.hotY, cursor.width, cursor.height, h,
                if h != 0 then cursor.obj.value.size else 0, cursor.pixelFormat, cursor.stride)
  }

  /** The cursor's own half of an update. */
  method UpdateCursor(cursor: Cursor.EvdiCursor, was: CursorState, now: CursorState)
    returns (changed: bool, moved: bool)
    requires cursor.Valid()
    requires now.fb.Some? ==>
      now.fb.value.width <= MAX_WIDTH && now.fb.value.height <= MAX_HEIGHT && Cursor.GemValid(now.fb.value.gem)
    modifies cursor
    ensures cursor.Valid() && cursor.x == now.x && cursor.y == now.y
    ensures changed == FbChanged(was, now) == (FbId(was) != FbId(now))
    ensures moved == (old(cursor.x) != now.x || old(cursor.y) != now.y)
    ensures !changed ==> cursor.Shown() == old(cursor.Shown()).(x := now.x, y := now.y)
    ensures changed ==> cursor.enabled == now.fb.Some?
    ensures changed && now.fb.Some? ==>
      && cursor.width == now.fb.value.width && cursor.height == now.fb.value.height
      && cursor.pixelFormat == now.fb.value.format && cursor.bytesPerPixel == now.fb.value.bytesPerPixel
      && cursor.stride == 4 * now.fb.value.width && cursor.hotX == 0 && cursor.hotY == 0
      && cursor.obj == Mappable(now.fb.value.gem)
    ensures changed && now.fb.None? ==> cursor.obj.None? && !cursor.Shown().visible
    ensures changed && Plain(now) ==> Mirror.SameCursor(cursor.Shown(), Mirror.Target(PlaneOf(now)))
  {
    var oldX, oldY := cursor.x, cursor.y;
    cursor.Move(now.x, now.y);
    moved := oldX != now.x || oldY != now.y;
    changed := FbChanged(was, now);
    if changed {
      if now.fb.Some? {
        var fb := now.fb.value;
        cursor.Set(fb.gem, fb.width, fb.height, 0, 0, fb.format, fb.bytesPerPixel, 4 * fb.width);
      }
      cursor.Enable(now.fb.Some?);
    }
  }

  /** What a client is told of a cursor's shape: enabled exactly if the image was mapped and has a handle. */
  predicate ShapeTells(shape: CursorShape, st: CursorState, handle: nat) {
    && (shape.enabled <==> st.fb.Some? && Mappable(st.fb.value.gem).Some? && handle != 0)
    && (st.fb.Some? ==>
          && shape.width == st.fb.value.width && shape.height == st.fb.value.height
          && shape.format == st.fb.value.format && shape.stride == 4 * st.fb.value.width
          && shape.hotX == 0 && shape.hotY == 0)
    && shape.handle == (if st.fb.Some? && Mappable(st.fb.value.gem).Some? then handle else 0)
    && shape.length == (if shape.enabled then st.fb.value.gem.value.size else 0)
  }

  /** News is a shape event and then a move event. */
  lemma NewsTells(p: PainterState, shape: Option<CursorShape>, position: Option<CursorPlane.Point>)
    requires p.connected && p.filp.Some?
    ensures CursorNews(p, shape, position).queue.accepted == p.queue.accepted
      + (if shape.Some? then [CursorSet(shape.value)] else [])
      + (if position.Some? then [CursorMove(position.value.x, position.value.y)] else [])
  {
  }

  function Mappable(gem: Option<Cursor.Gem>): Option<Cursor.Gem> {
    if gem.Some? && gem.value.vmapping.None? then None else gem
  }

  method CursorAtomicUpdate(painter: Painter.Painter, cursor: Cursor.EvdiCursor, cursorEvents: bool,
                            was: CursorState, now: CursorState, handle: nat)
    requires painter.Valid() && cursor.Valid()
    requires now.fb.Some? ==>
      now.fb.value.width <= MAX_WIDTH && now.fb.value.height <= MAX_HEIGHT && Cursor.GemValid(now.fb.value.gem)
    modifies painter, painter.dirtyRects, cursor
    ensures painter.Valid() && cursor.Valid() && cursor.x == now.x && cursor.y == now.y
    ensures !FbChanged(was, now) ==> cursor.Shown() == old(cursor.Shown()).(x := now.x, y := now.y)
    ensures FbChanged(was, now) ==> cursor.enabled == now.fb.Some? && ShapeTells(ShapeOf(cursor, handle), now, handle)
    ensures painter.Abs() ==
      if !cursorEvents then CursorDamage(old(painter.Abs()), was, now)
      else CursorNews(old(painter.Abs()),
                      if FbChanged(was, now) then Some(ShapeOf(cursor, handle)) else None,
                      if old(cursor.x) != now.x || old(cursor.y) != now.y
                      then Some(CursorPlane.Point(now.x, now.y)) else None)
  {
    var changed, moved := UpdateCursor(cursor, was, now);
    if !cursorEvents {
      ReportCursor(painter, was, now);
      return;
    }
    SendNews(painter, cursor, changed, moved, handle);
  }

  method SendNews(painter: Painter.Painter, cursor: Cursor.EvdiCursor, changed: bool, moved: bool, handle: nat)
    requires painter.Valid()
    modifies painter
    ensures painter.Valid()
    ensures painter.Abs() ==
      CursorNews(old(painter.Abs()), if changed then Some(ShapeOf(cursor, handle)) else None,
                 if moved then Some(CursorPlane.Point(cursor.x, cursor.y)) else None)
  {
    if changed {
      painter.SendEvent(CursorSet(ShapeOf(cursor, handle)));
    }
    if moved {
      painter.SendEvent(CursorMove(cursor.x, cursor.y));
    }
  }

  method ReportCursor(painter: Painter.Painter, was: CursorState, now: CursorState)
    requires painter.Valid()
    modifies painter, painter.dirtyRects
    ensures painter.Valid() && painter.Abs() == CursorDamage(old(painter.Abs()), was, now)
  {
    if now.fb.None? {
      return;
    }
    var rect;
    if now.fb.value.rectUpdates {
      rect := CursorGetRect(now);
      painter.MarkDirty(CursorGetRect(was));
    } else {
      rect := if painter.scanoutFb.Some? then Full(painter.scanoutFb.value) else Rect(0, 0, 0, 0);
    }
    painter.MarkDirty(rect);
  }

  // ---- What the cursor update records ----

  predicate CursorDraws(st: CursorState, x: int, y: int) {
    && st.fb.Some?
    && st.x <= x < st.x + CursorPlane.Drawn(st.w)
    && st.y <= y < st.y + CursorPlane.Drawn(st.h)
  }

  ghost predicate CursorRecorded(dirts: seq<Rect>, screen: Framebuffer, st: CursorState) {
    forall x, y :: OnScreen(screen, x, y) && CursorDraws(st, x, y) ==> Covered(dirts, x, y)
  }

  /** Without cursor events, an update records every pixel the cursor leaves or enters exactly when
      it does not hide the cursor, or those it leaves were recorded already. */
  lemma CursorUpdateRecordsIff(p: PainterState, was: CursorState, now: CursorState, screen: Framebuffer)
    requires |p.dirts| <= MAX_DIRTS && p.scanout == Some(screen)
    requires was.w <= MAX_WIDTH && was.h <= MAX_HEIGHT && now.w <= MAX_WIDTH && now.h <= MAX_HEIGHT
    ensures var q := CursorDamage(p, was, now);
      CursorRecorded(q.dirts, screen, was) && CursorRecorded(q.dirts, screen, now) <==>
        now.fb.Some? || CursorRecorded(p.dirts, screen, was)
  {
    if now.fb.Some? {
      forall x, y | OnScreen(screen, x, y) && (CursorDraws(was, x, y) || CursorDraws(now, x, y))
        ensures Covered(CursorDamage(p, was, now).dirts, x, y)
      {
        CursorPixelRecorded(p, was, now, screen, x, y);
      }
    }
  }

  lemma CursorPixelRecorded(p: PainterState, was: CursorState, now: CursorState, screen: Framebuffer, x: int, y: int)
    requires |p.dirts| <= MAX_DIRTS && p.scanout == Some(screen) && now.fb.Some?
    requires was.w <= MAX_WIDTH && was.h <= MAX_HEIGHT && now.w <= MAX_WIDTH && now.h <= MAX_HEIGHT
    requires OnScreen(screen, x, y) && (CursorDraws(was, x, y) || CursorDraws(now, x, y))
    ensures Covered(CursorDamage(p, was, now).dirts, x, y)
  {
    var at := CursorPlane.Point(x, y);
    if !now.fb.value.rectUpdates {
      MarkRecords(p, FramebufferSize(p), x, y);
    } else {
      MarkGrows(p, CursorGetRect(was));
      if CursorDraws(was, x, y) {
        CursorPlane.CursorRectCovers(screen, was.x, was.y, was.w, was.h, at);
        MarkRecords(p, CursorGetRect(was), x, y);
      } else {
        CursorPlane.CursorRectCovers(screen, now.x, now.y, now.w, now.h, at);
      }
      MarkRecords(MarkDirty(p, CursorGetRect(was)), CursorGetRect(now), x, y);
    }
  }

  // ---- The same update pixel by pixel ----

  /** The image of a cursor framebuffer, if it can be mapped. */
  function ImageOf(fb: CursorFb): Option<CursorPlane.Image> {
    if fb.gem.Some? && fb.gem.value.vmapping.Some? then Some(Cursor.PixelsOf(fb.width, fb.gem.value.vmapping.value))
    else None
  }

  /** An admissible size, shown as it is, of an image that can be mapped. */
  predicate Plain(st: CursorState) {
    st.fb.Some? ==>
      && st.w == st.fb.value.width <= MAX_WIDTH && st.h == st.fb.value.height <= MAX_HEIGHT
      && ImageOf(st.fb.value).Some?
  }

  function PlaneOf(st: CursorState): Mirror.Plane
    requires Plain(st)
  {
    Mirror.Plane(st.x, st.y, st.w, st.h, if st.fb.Some? then ImageOf(st.fb.value) else None)
  }

  /** Recording reports in order. */
  function MarkedReports(dirts: seq<Rect>, screen: Framebuffer, rects: seq<Rect>): (r: seq<Rect>)
    requires |dirts| <= MAX_DIRTS
    ensures |r| <= MAX_DIRTS
    decreases |rects|
  {
    if rects == [] then dirts
    else
      var first := Sanitized(screen, rects[0]);
      MarkedCovers(dirts, first);
      MarkedReports(Marked(dirts, first), screen, rects[1..])
  }

  lemma MarkedOne(dirts: seq<Rect>, screen: Framebuffer, a: Rect)
    requires |dirts| <= MAX_DIRTS
    ensures MarkedReports(dirts, screen, [a]) == Marked(dirts, Sanitized(screen, a))
  {
    MarkedCovers(dirts, Sanitized(screen, a));
    assert [a][1..] == [];
  }

  lemma MarkedTwo(dirts: seq<Rect>, screen: Framebuffer, a: Rect, b: Rect)
    requires |dirts| <= MAX_DIRTS
    ensures |Marked(dirts, Sanitized(screen, a))| <= MAX_DIRTS
    ensures MarkedReports(dirts, screen, [a, b]) == Marked(Marked(dirts, Sanitized(screen, a)), Sanitized(screen, b))
  {
    MarkedCovers(dirts, Sanitized(screen, a));
    assert [a, b][1..] == [b];
    MarkedOne(Marked(dirts, Sanitized(screen, a)), screen, b);
  }

  /** What the update marks are the reports of the pixel by pixel model, in their order. */
  lemma CursorDamageIsReports(p: PainterState, was: CursorState, now: CursorState, screen: Framebuffer)
    requires |p.dirts| <= MAX_DIRTS && p.scanout == Some(screen) && Plain(was) && Plain(now)
    ensures var rectUpdates := now.fb.Some? && now.fb.value.rectUpdates;
      CursorDamage(p, was, now).dirts
        == MarkedReports(p.dirts, screen, Mirror.Reports(screen, rectUpdates, PlaneOf(was), PlaneOf(now)))
  {
    if now.fb.Some? {
      if now.fb.value.rectUpdates {
        MarkedTwo(p.dirts, screen, CursorGetRect(was), CursorGetRect(now));
      } else {
        MarkedOne(p.dirts, screen, Full(screen));
      }
    }
  }
}
