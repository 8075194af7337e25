/** The painter as the object it is: fields updated in place, each entry point tied to the
    function on its abstract state. */
module Painter {
  import opened Wrappers
  import opened Rects
  import opened DirtyRects
  import opened Events
  import opened PainterModel

  class Painter {
    var isConnected: bool
    const dirtyRects: array<Rect>
    var numDirts: int
    var scanoutFb: Option<Framebuffer>
    var drmFilp: Option<nat>
    var wasUpdateRequested: bool
    var needsFullModeset: bool
    var crtc: Option<nat>
    var vblank: Option<nat>
    var pendingEvents: seq<Event>
    var sendEventsWork: bool
    var fgConsole: int

    // The DRM core's side: room left in the client's queue, and what it was given.
    var eventSpace: nat
    var delivered: seq<Event>
    var completed: seq<Vblank>
    ghost var accepted: seq<Event>

    ghost predicate Valid()
      reads this, dirtyRects
    {
      && dirtyRects.Length == MAX_DIRTS
      && 0 <= numDirts <= MAX_DIRTS
      && AllFit(dirtyRects[..numDirts], MAX_WIDTH, MAX_HEIGHT)
    }

    ghost function Abs(): PainterState
      requires Valid()
      reads this, dirtyRects
    {
      PainterState(isConnected, dirtyRects[..numDirts], scanoutFb, drmFilp, wasUpdateRequested,
                   needsFullModeset, crtc, vblank, fgConsole, EventQueue(), completed)
    }

    ghost function EventQueue(): Queue
      reads this
    {
      Queue(pendingEvents, sendEventsWork, eventSpace, delivered, accepted)
    }

    constructor ()
      ensures Valid() && Abs() == FRESH
      ensures !isConnected && drmFilp.None? && needsFullModeset
      ensures numDirts == 0 && scanoutFb.None? && pendingEvents == []
    {
      isConnected := false;
      dirtyRects := new Rect[MAX_DIRTS](_ => Rect(0, 0, 0, 0));
      numDirts := 0;
      scanoutFb, drmFilp := None, None;
      wasUpdateRequested, needsFullModeset := false, true;
      crtc, vblank := None, None;
      pendingEvents, sendEventsWork := [], false;
      fgConsole := 0;
      eventSpace, delivered, completed, accepted := 0, [], [], [];
    }

    // ---- Events ----

    method AddEventToPendingList(event: Event)
      modifies this`pendingEvents
      ensures pendingEvents == Enqueued(old(pendingEvents), event)
    {
      var last: Option<Event> := None;
      if pendingEvents != [] {
        last := Some(pendingEvents[|pendingEvents| - 1]);
      }
      if last.Some? && SameType(event, last.value) && Squashable(event) {
        pendingEvents := pendingEvents[|pendingEvents| - 1 := event];
        assert pendingEvents == Enqueued(old(pendingEvents), event);
      } else {
        pendingEvents := pendingEvents + [event];
      }
    }

    method FlushPendingEvents() returns (flushedAll: bool)
      modifies this`pendingEvents, this`eventSpace, this`delivered
      ensures flushedAll == (pendingEvents == [])
      ensures delivered + pendingEvents == old(delivered + pendingEvents) && old(delivered) <= delivered
      ensures TotalLength(delivered) + eventSpace == old(TotalLength(delivered) + eventSpace)
      ensures pendingEvents == [] || Length(pendingEvents[0]) > eventSpace
      ensures EventQueue().(scheduled := !flushedAll) == Flush(old(EventQueue()))
    {
      hide TotalLength, FlushCount, Length;
      ghost var all, room := pendingEvents, eventSpace;
      ghost var n := 0;
      NonePrefix(all);
      while pendingEvents != []
        invariant n <= |all| && pendingEvents == all[n..]
        invariant n + FlushCount(pendingEvents, eventSpace) == FlushCount(all, room)
        invariant delivered == old(delivered) + all[..n]
        invariant TotalLength(all[..n]) + eventSpace == room
        decreases |pendingEvents|
      {
        FlushCountStep(pendingEvents, eventSpace);
        var event := pendingEvents[0];
        var hasSpace := Length(event) <= eventSpace;
        if hasSpace {
          PrefixGrows(all, n);
          eventSpace := eventSpace - Length(event);
          pendingEvents := pendingEvents[1..];
          delivered := delivered + [event];
          n := n + 1;
        } else {
          break;
        }
      }
      FlushCountStep(pendingEvents, eventSpace);
      FlushDelivers(old(EventQueue()));
      flushedAll := pendingEvents == [];
    }

    method SendEvent(event: Event)
      modifies this`pendingEvents, this`eventSpace, this`delivered, this`accepted, this`sendEventsWork
      ensures EventQueue() == if drmFilp.None? || !isConnected then old(EventQueue())
                              else Send(old(EventQueue()), event)
      ensures drmFilp.Some? && isConnected && old(pendingEvents == [] && !sendEventsWork && Length(event) <= eventSpace)
        ==> delivered == old(delivered) + [event] && pendingEvents == []
    {
      SendDelivers(EventQueue(), event);
      if drmFilp.None? {
        return;
      }
      if !isConnected {
        return;
      }
      AddEventToPendingList(event);
      accepted := accepted + [event];
      if sendEventsWork {
        return;
      }
      var flushed := FlushPendingEvents();
      if flushed {
        return;
      }
      sendEventsWork := true;
    }

    method SendEventsWork()
      requires sendEventsWork
      modifies this`pendingEvents, this`eventSpace, this`delivered, this`sendEventsWork
      ensures EventQueue() == Flush(old(EventQueue()))
      ensures old(pendingEvents != [] && Length(pendingEvents[0]) <= eventSpace)
        ==> old(delivered) + [old(pendingEvents)[0]] <= delivered
    {
      hide TotalLength, FlushCount;
      if pendingEvents != [] && Length(pendingEvents[0]) <= eventSpace {
        FlushDeliversHead(EventQueue());
      }
      sendEventsWork := false;
      var flushed := FlushPendingEvents();
      if flushed {
        return;
      }
      sendEventsWork := true;
    }

    /** The history of the connection ends with its pending events. */
    method EventsCleanup()
      modifies this`pendingEvents, this`sendEventsWork, this`eventSpace, this`delivered, this`accepted
      ensures EventQueue() == EMPTY_QUEUE
    {
      while pendingEvents != []
        decreases |pendingEvents|
      {
        pendingEvents := pendingEvents[1..];
      }
      sendEventsWork := false;
      eventSpace, delivered, accepted := 0, [], [];
    }

    // ---- Vblanks ----

    method CompleteVblank(onCrtc: Option<nat>, event: Option<nat>)
      requires Valid()
      modifies this`completed
      ensures Valid() && Abs() == old(Abs()).(completed := old(completed) + Sent(onCrtc, event))
    {
      if onCrtc.Some? && event.Some? {
        completed := completed + [Vblank(onCrtc.value, event.value)];
      }
    }

    method SendVblank()
      requires Valid()
      modifies this`completed, this`crtc, this`vblank
      ensures Valid() && Abs() == SendHeldVblank(old(Abs()))
    {
      CompleteVblank(crtc, vblank);
      crtc := None;
      vblank := None;
    }

    method SetVblank(onCrtc: Option<nat>, event: Option<nat>)
      requires Valid()
      modifies this`completed, this`crtc, this`vblank
      ensures Valid() && Abs() == PainterModel.SetVblank(old(Abs()), onCrtc, event)
      ensures if isConnected && numDirts > 0
        then crtc == onCrtc && vblank == event && completed == old(completed) + Sent(old(crtc), old(vblank))
        else
          && crtc.None? && vblank.None?
          && completed == old(completed) + Sent(old(crtc), old(vblank)) + Sent(onCrtc, event)
    {
      SendVblank();
      if numDirts > 0 && isConnected {
        crtc := onCrtc;
        vblank := event;
      } else {
        CompleteVblank(onCrtc, event);
      }
    }

    // ---- Damage ----

    method MarkDirty(dirtyRect: Rect)
      requires Valid()
      modifies this`numDirts, dirtyRects
      ensures Valid() && Abs() == PainterModel.MarkDirty(old(Abs()), dirtyRect)
    {
      if scanoutFb.None? {
        return;
      }
      var rect := SanitizeRect(scanoutFb.value, dirtyRect);
      MarkedFits(dirtyRects[..numDirts], rect);
      if numDirts == MAX_DIRTS {
        numDirts := MergeDirtyRects(dirtyRects, numDirts);
      }
      if numDirts == MAX_DIRTS {
        numDirts := CollapseDirtyRects(dirtyRects, numDirts);
      }
      dirtyRects[numDirts] := rect;
      numDirts := numDirts + 1;
      assert dirtyRects[..numDirts] == Marked(old(dirtyRects[..numDirts]), rect);
    }

    /** The locked part of a grab; `snapshot` is the caller's copy of the list. */
    method TakeSnapshot(numRects: int) returns (grab: Grab)
      requires Valid()
      modifies this`numDirts, this`crtc, this`vblank, dirtyRects
      ensures Valid() && (Abs(), grab) == PainterModel.TakeSnapshot(old(Abs()), numRects)
      ensures numRects < 1 ==> grab == Refused(EINVAL) && Abs() == old(Abs())
      ensures numRects >= 1 && scanoutFb.None? ==> grab == Refused(EAGAIN) && crtc == old(crtc) && vblank == old(vblank)
      ensures numRects >= 1 && scanoutFb.Some? ==>
        && numDirts == 0 && crtc.None? && vblank.None?
        && grab.Snapshot? && grab.fb == scanoutFb.value && grab.crtc == old(crtc) && grab.vblank == old(vblank)
        && |grab.rects| <= numRects && Summarises(grab.rects, old(dirtyRects[..numDirts]))
    {
      if numRects < 1 {
        return Refused(EINVAL);
      }
      if numDirts < 0 {
        assert false;
      }
      TakenCovers(dirtyRects[..numDirts], numRects);
      MergedSummarises(dirtyRects[..numDirts]);
      numDirts := MergeDirtyRects(dirtyRects, numDirts);
      if numDirts > numRects {
        numDirts := CollapseDirtyRects(dirtyRects, numDirts);
      }
      var snapshot := dirtyRects[..numDirts];
      if scanoutFb.None? {
        return Refused(EAGAIN);
      }
      numDirts := 0;
      grab := Snapshot(scanoutFb.value, snapshot, crtc, vblank);
      crtc := None;
      vblank := None;
    }

    // ---- The update handshake ----

    method RequestUpdate() returns (result: int)
      requires Valid()
      modifies this`wasUpdateRequested
      ensures Valid() && (Abs(), result) == PainterModel.RequestUpdate(old(Abs()))
      ensures result == (if !old(wasUpdateRequested) && numDirts > 0 then 1 else 0)
      ensures wasUpdateRequested == (old(wasUpdateRequested) || numDirts == 0)
    {
      result := 0;
      if wasUpdateRequested {
        return;
      } else {
        if numDirts > 0 {
          result := 1;
        } else {
          wasUpdateRequested := true;
        }
      }
    }

    method SendUpdateReadyIfNeeded()
      requires Valid()
      modifies this`pendingEvents, this`eventSpace, this`delivered, this`accepted, this`sendEventsWork,
               this`wasUpdateRequested
      ensures Valid() && Abs() == PainterModel.SendUpdateReadyIfNeeded(old(Abs()))
    {
      hide AllFit, Send;
      if wasUpdateRequested && numDirts != 0 {
        SendEvent(UpdateReady);
        wasUpdateRequested := false;
      }
    }

    // ---- Mode setting and consoles ----

    method DpmsNotify(console: int, mode: int)
      requires Valid()
      modifies this`pendingEvents, this`eventSpace, this`delivered, this`accepted, this`sendEventsWork,
               this`fgConsole
      ensures Valid() && Abs() == PainterModel.DpmsNotify(old(Abs()), console, mode)
    {
      hide AllFit, Send;
      if !isConnected {
        return;
      }
      if mode == DPMS_ON {
        fgConsole := console;
      }
      SendEvent(Dpms(mode));
    }

    method ModeChangedNotify(mode: DisplayMode)
      requires Valid()
      modifies this`pendingEvents, this`eventSpace, this`delivered, this`accepted, this`sendEventsWork,
               this`needsFullModeset
      ensures Valid() && Abs() == PainterModel.ModeChangedNotify(old(Abs()), mode)
    {
      hide AllFit, Send;
      if scanoutFb.None? {
        return;
      }
      var format := scanoutFb.value.format;
      SendEvent(ModeChanged(mode.hdisplay, mode.vdisplay, mode.vrefresh, BITS_PER_PIXEL, format));
      needsFullModeset := false;
    }

    method VtNotifierCall(console: int)
      requires Valid()
      modifies this`pendingEvents, this`eventSpace, this`delivered, this`accepted, this`sendEventsWork,
               this`fgConsole, this`needsFullModeset
      ensures Valid() && Abs() == VtNotify(old(Abs()), console)
    {
      if isConnected && console != fgConsole && !needsFullModeset {
        DpmsNotify(console, DPMS_OFF);
        needsFullModeset := true;
      }
    }

    method CrtcAtomicFlush(console: int, onCrtc: nat, st: CrtcState)
      requires Valid()
      modifies this`pendingEvents, this`eventSpace, this`delivered, this`accepted, this`sendEventsWork,
               this`fgConsole, this`needsFullModeset, this`completed, this`crtc, this`vblank,
               this`wasUpdateRequested
      ensures Valid() && Abs() == CrtcFlush(old(Abs()), console, onCrtc, st)
    {
      var notifyModeChanged := st.active && (st.modeChanged || needsFullModeset);
      var notifyDpms := st.activeChanged || needsFullModeset;
      if notifyModeChanged {
        ModeChangedNotify(st.mode);
      }
      if notifyDpms {
        DpmsNotify(console, if st.active then DPMS_ON else DPMS_OFF);
      }
      SetVblank(Some(onCrtc), st.event);
      SendUpdateReadyIfNeeded();
    }

    method SetScanoutBuffer(newFb: Option<Framebuffer>)
      requires Valid()
      modifies this`scanoutFb
      ensures Valid() && Abs() == old(Abs()).(scanout := newFb)
    {
      scanoutFb := newFb;
    }

    method ForceFullModeset()
      requires Valid()
      modifies this`needsFullModeset
      ensures Valid() && Abs() == old(Abs()).(needsModeset := true)
    {
      needsFullModeset := true;
    }

    // ---- Connection ----

    method Connect(file: nat, space: nat, edidLength: int) returns (err: Option<Errno>)
      requires Valid()
      modifies this`drmFilp, this`isConnected, this`needsFullModeset, this`eventSpace, this`delivered,
               this`accepted
      ensures Valid()
      ensures (Abs(), err) == PainterModel.Connect(old(Abs()), file, space, edidLength)
      ensures err.None? <==> MIN_EDID_SIZE <= edidLength <= MAX_EDID_SIZE
      ensures err.None? ==> drmFilp == Some(file) && isConnected && needsFullModeset
    {
      hide AllFit;
      if edidLength < MIN_EDID_SIZE {
        return Some(EINVAL);
      }
      if edidLength > MAX_EDID_SIZE {
        return Some(EINVAL);
      }
      drmFilp := Some(file);
      isConnected := true;
      needsFullModeset := true;
      eventSpace := space;
      delivered := [];
      accepted := pendingEvents;
      err := None;
    }

    method Disconnect(file: nat) returns (err: Option<Errno>)
      requires Valid()
      modifies this
      ensures Valid()
      ensures Abs() == PainterModel.Disconnect(old(Abs()), file).0
      ensures err == PainterModel.Disconnect(old(Abs()), file).1
      ensures err.None? <==> old(drmFilp) == Some(file)
      ensures err.None? ==> !isConnected && drmFilp.None? && scanoutFb.None? && !wasUpdateRequested && vblank.None?
    {
      hide AllFit;
      if drmFilp.None? || file != drmFilp.value {
        err := Some(EFAULT);
      } else {
        scanoutFb := None;
        isConnected := false;
        EventsCleanup();
        SendVblank();
        drmFilp := None;
        wasUpdateRequested := false;
        err := None;
      }
    }

    method Cleanup()
      requires Valid()
      modifies this`scanoutFb, this`pendingEvents, this`sendEventsWork, this`completed, this`crtc,
               this`vblank, this`eventSpace, this`delivered, this`accepted
      ensures Valid() && Abs() == PainterModel.Cleanup(old(Abs()))
    {
      hide AllFit;
      scanoutFb := None;
      SendVblank();
      EventsCleanup();
    }
  }
}
