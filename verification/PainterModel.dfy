/** The painter's state as a value, and each locked section of its code as a function on it. */
module PainterModel {
  import opened Wrappers
  import opened Rects
  import opened DirtyRects
  import opened Events

  const DPMS_ON := 0
  const DPMS_OFF := 3
  const BITS_PER_PIXEL := 32
  const MIN_EDID_SIZE := 128
  const MAX_EDID_SIZE := 255 * 128 + 128

  /** A vblank event with the crtc it is to be completed on. */
  datatype Vblank = Vblank(crtc: nat, event: nat)

  datatype DisplayMode = DisplayMode(hdisplay: nat, vdisplay: nat, vrefresh: nat)

  datatype PainterState = PainterState(
    connected: bool,
    dirts: seq<Rect>,
    scanout: Option<Framebuffer>,
    filp: Option<nat>,
    updateRequested: bool,
    needsModeset: bool,
    crtc: Option<nat>,
    vblank: Option<nat>,
    fgConsole: int,
    queue: Queue,
    completed: seq<Vblank>)   // vblank events handed back to the DRM core

  const FRESH := PainterState(false, [], None, None, false, true, None, None, 0, EMPTY_QUEUE, [])

  // ---- Events ----

  function SendEvent(p: PainterState, e: Event): PainterState {
    if p.filp.None? || !p.connected then p else p.(queue := Send(p.queue, e))
  }

  // ---- Vblanks ----

  function Sent(crtc: Option<nat>, vblank: Option<nat>): seq<Vblank> {
    if crtc.Some? && vblank.Some? then [Vblank(crtc.value, vblank.value)] else []
  }

  function SendHeldVblank(p: PainterState): PainterState {
    p.(completed := p.completed + Sent(p.crtc, p.vblank), crtc := None, vblank := None)
  }

  function SetVblank(p: PainterState, crtc: Option<nat>, vblank: Option<nat>): PainterState {
    var q := SendHeldVblank(p);
    if |q.dirts| > 0 && q.connected then q.(crtc := crtc, vblank := vblank)
    else q.(completed := q.completed + Sent(crtc, vblank))
  }

  // ---- Damage ----

  function MarkDirty(p: PainterState, dirty: Rect): PainterState
    requires |p.dirts| <= MAX_DIRTS
  {
    match p.scanout
    case None => p
    case Some(fb) => p.(dirts := Marked(p.dirts, Sanitized(fb, dirty)))
  }

  datatype Grab =
    | Refused(error: Errno)
    | Snapshot(fb: Framebuffer, rects: seq<Rect>, crtc: Option<nat>, vblank: Option<nat>)

  /** The part of a grab done under the lock. Without a scanout buffer the list has been merged
      but nothing is taken. */
  function TakeSnapshot(p: PainterState, numRects: int): (PainterState, Grab) {
    if numRects < 1 then (p, Refused(EINVAL))
    else
      var rects := Taken(p.dirts, numRects);
      match p.scanout
      case None => (p.(dirts := rects), Refused(EAGAIN))
      case Some(fb) =>
        (p.(dirts := [], crtc := None, vblank := None), Snapshot(fb, rects, p.crtc, p.vblank))
  }

  // ---- The update handshake ----

  function RequestUpdate(p: PainterState): (PainterState, int) {
    if p.updateRequested then (p, 0)
    else if |p.dirts| > 0 then (p, 1)
    else (p.(updateRequested := true), 0)
  }

  function SendUpdateReadyIfNeeded(p: PainterState): PainterState {
    if p.updateRequested && |p.dirts| > 0 then SendEvent(p, UpdateReady).(updateRequested := false) else p
  }

  // ---- Mode setting and consoles ----

  function DpmsNotify(p: PainterState, console: int, mode: int): PainterState {
    if !p.connected then p
    else SendEvent(if mode == DPMS_ON then p.(fgConsole := console) else p, Dpms(mode))
  }

  function ModeEvent(mode: DisplayMode, format: nat): Event {
    ModeChanged(mode.hdisplay, mode.vdisplay, mode.vrefresh, BITS_PER_PIXEL, format)
  }

  function ModeChangedNotify(p: PainterState, mode: DisplayMode): PainterState {
    match p.scanout
    case None => p
    case Some(fb) => SendEvent(p, ModeEvent(mode, fb.format)).(needsModeset := false)
  }

  predicate VtSwitched(p: PainterState, console: int) {
    p.connected && console != p.fgConsole && !p.needsModeset
  }

  function VtNotify(p: PainterState, console: int): PainterState {
    if VtSwitched(p, console) then DpmsNotify(p, console, DPMS_OFF).(needsModeset := true) else p
  }

  datatype CrtcState = CrtcState(active: bool, modeChanged: bool, activeChanged: bool,
                                 mode: DisplayMode, event: Option<nat>)

  /** The end of an atomic commit on a crtc. */
  function CrtcFlush(p: PainterState, console: int, crtc: nat, st: CrtcState): PainterState {
    var notifyMode := st.active && (st.modeChanged || p.needsModeset);
    var notifyDpms := st.activeChanged || p.needsModeset;
    var p1 := if notifyMode then ModeChangedNotify(p, st.mode) else p;
    var p2 := if notifyDpms then DpmsNotify(p1, console, if st.active then DPMS_ON else DPMS_OFF) else p1;
    SendUpdateReadyIfNeeded(SetVblank(p2, Some(crtc), st.event))
  }

  // ---- Connection ----

  /** A second connect replaces the file but keeps the pending list. */
  function Connect(p: PainterState, file: nat, space: nat, edidLength: int): (PainterState, Option<Errno>) {
    if !(MIN_EDID_SIZE <= edidLength <= MAX_EDID_SIZE) then (p, Some(EINVAL))
    else (p.(filp := Some(file), connected := true, needsModeset := true,
             queue := p.queue.(space := space, delivered := [], accepted := p.queue.pending)), None)
  }

  function Disconnect(p: PainterState, file: nat): (PainterState, Option<Errno>) {
    if p.filp.None? || p.filp.value != file then (p, Some(EFAULT))
    else (SendHeldVblank(p).(scanout := None, connected := false, filp := None,
                             updateRequested := false, queue := EMPTY_QUEUE), None)
  }

  function Cleanup(p: PainterState): PainterState {
    SendHeldVblank(p).(scanout := None, queue := EMPTY_QUEUE)
  }

  // ---- What the sections come to ----

  /** A grab is turned down for a bad count first, then for want of a scanout buffer. Otherwise it takes all
      that is recorded and the held vblank, and leaves neither behind. */
  lemma SnapshotTakesAll(p: PainterState, numRects: int)
    ensures var (q, grab) := TakeSnapshot(p, numRects);
      && (grab == Refused(EINVAL) <==> numRects < 1)
      && (grab == Refused(EAGAIN) <==> numRects >= 1 && p.scanout.None?)
      && (grab.Snapshot? <==> numRects >= 1 && p.scanout.Some?)
      && (grab.Snapshot? ==>
            && q.dirts == [] && q.crtc.None? && q.vblank.None?
            && p.scanout == Some(grab.fb) && grab.crtc == p.crtc && grab.vblank == p.vblank
            && |grab.rects| <= numRects && Summarises(grab.rects, p.dirts))
      && (grab.Refused? ==> q == p.(dirts := q.dirts) && Summarises(q.dirts, p.dirts))
  {
    if numRects >= 1 {
      TakenCovers(p.dirts, numRects);
    }
  }

  /** A vblank is held exactly for a connected client with damage to grab; only the one held before is then
      completed, and otherwise both. */
  lemma VblankHeldIff(p: PainterState, crtc: nat, vblank: nat)
    ensures var q := SetVblank(p, Some(crtc), Some(vblank));
      && (q.crtc == Some(crtc) && q.vblank == Some(vblank) <==> p.connected && p.dirts != [])
      && (q.crtc.None? && q.vblank.None? <==> !(p.connected && p.dirts != []))
      && q.completed == p.completed + Sent(p.crtc, p.vblank)
           + (if p.connected && p.dirts != [] then [] else [Vblank(crtc, vblank)])
  {
  }

  /** DPMS reaches whoever is connected, and only ON records the console. */
  lemma DpmsTells(p: PainterState, console: int, mode: int)
    ensures var q := DpmsNotify(p, console, mode);
      && q.queue.accepted == p.queue.accepted + (if p.connected && p.filp.Some? then [Dpms(mode)] else [])
      && q.fgConsole == (if p.connected && mode == DPMS_ON then console else p.fgConsole)
  {
  }

  /** The mode a client is told is the new one, with the scanout buffer's format. */
  lemma ModeTold(p: PainterState, mode: DisplayMode)
    requires p.connected && p.filp.Some? && p.scanout.Some?
    ensures var q := ModeChangedNotify(p, mode);
      && |q.queue.accepted| == |p.queue.accepted| + 1
      && var e := q.queue.accepted[|p.queue.accepted|];
      && e.ModeChanged? && DisplayMode(e.hdisplay, e.vdisplay, e.vrefresh) == mode
      && e.bitsPerPixel == 32 && e.format == p.scanout.value.format && !q.needsModeset
  {
  }

  /** Connecting with an EDID of one to 256 blocks' length makes a full modeset owed to the new client. */
  lemma ConnectOwes(p: PainterState, file: nat, space: nat, edidLength: int)
    ensures var (q, err) := Connect(p, file, space, edidLength);
      && (err.None? <==> 128 <= edidLength <= 256 * 128)
      && (err.None? ==> q.connected && q.filp == Some(file) && q.needsModeset
                        && q.queue.pending == p.queue.pending && q.queue.delivered == []
                        && q.queue.space == space && q.queue.accepted == p.queue.pending)
      && (err.Some? ==> q == p && err == Some(EINVAL))
  {
  }

  /** Only the client that is connected can disconnect; nothing of its session is left but the damage. */
  lemma DisconnectIsOwners(p: PainterState, file: nat)
    ensures var (q, err) := Disconnect(p, file);
      && (err.None? <==> p.filp == Some(file))
      && (err.Some? ==> q == p && err == Some(EFAULT))
      && (err.None? ==>
            && !q.connected && q.filp.None? && q.scanout.None? && !q.updateRequested
            && q.vblank.None? && q.completed == p.completed + Sent(p.crtc, p.vblank)
            && q.queue == EMPTY_QUEUE && q.dirts == p.dirts)
  {
  }
}
