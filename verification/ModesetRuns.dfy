/** A flip as a run of the painter's protocol: the locked sections it takes, in order. */
module ModesetRuns {
  import opened Wrappers
  import opened Rects
  import opened DirtyRects
  import opened PainterModel
  import opened Modeset
  import opened Protocol
  import opened ProtocolRuns

  function Marks(clips: seq<Rect>): seq<Action> {
    if clips == [] then [] else Marks(clips[..|clips| - 1]) + [Locked(Mark(clips[|clips| - 1]))]
  }

  /** Without a client the second step is not taken. */
  function DpmsSteps(mode: int): seq<Action> {
    [DpmsStart(mode)] + [DpmsPost]
  }

  function NotifySteps(was: Plane, now: Plane): seq<Action> {
    if was.crtc.None? && now.crtc.Some? then DpmsSteps(DPMS_ON)
    else if was.crtc.Some? && now.crtc.None? then DpmsSteps(DPMS_OFF)
    else []
  }

  function SwapSteps(k: nat, fb: Option<Framebuffer>): seq<Action> {
    [SwapStart(fb)] + [SwapExchange(k)] + [Release(k)]
  }

  /** The new scanout is taken, exchanged, and the old one put, and then each clip marked. */
  function InstallSteps(s: System, was: Plane, now: Plane, clips: seq<Rect>): seq<Action> {
    (if ForcesModeset(was, now) then [Locked(ForceModeset)] else []) +
    (if Installs(s.p, was, now)
     then SwapSteps(|s.ops|, now.fb) + Marks(clips) else [])
  }

  function FlipSteps(s: System, was: Plane, now: Plane, clips: seq<Rect>): seq<Action>
    requires |s.p.dirts| <= MAX_DIRTS
  {
    if now.fb.None? then NotifySteps(was, now)
    else
      NotifySteps(was, now) + InstallSteps(s, was, now, clips) +
      if Installed(NotifyCrtc(s.p, s.console, was, now), was, now, clips).dirts == []
      then [Locked(Mark(Full(now.fb.value)))] else []
  }

  /** `t` is `s` with the painter in state `p`: still alive, with the same operations in flight. */
  ghost predicate Moved(s: System, t: System, p: PainterState) {
    t.p == p && t.alive == s.alive && t.console == s.console && t.ops == s.ops && t.commit == s.commit
  }

  lemma CallRun(s: System, call: Call)
    requires Enabled(s, Locked(call))
    ensures Moved(s, Run(s, [Locked(call)]), Apply(s.p, s.console, call))
  {
  }

  lemma {:induction false} MarksRun(s: System, clips: seq<Rect>)
    requires s.alive && |s.p.dirts| <= MAX_DIRTS
    ensures Moved(s, Run(s, Marks(clips)), MarkAll(s.p, clips))
    decreases |clips|
  {
    if clips != [] {
      var n := |clips| - 1;
      MarksRun(s, clips[..n]);
      RunAppend(s, Marks(clips[..n]), [Locked(Mark(clips[n]))]);
      CallRun(Run(s, Marks(clips[..n])), Mark(clips[n]));
    }
  }

  lemma SwapMoves(s: System, fb: Option<Framebuffer>)
    requires s.alive
    ensures var k := |s.ops|;
      var s1 := Step(s, SwapStart(fb));
      && Enabled(s1, SwapExchange(k)) && Enabled(Step(s1, SwapExchange(k)), Release(k))
      && Moved(s, Step(Step(s1, SwapExchange(k)), Release(k)), s.p.(scanout := fb))
  {
    var k := |s.ops|;
    assert Without((s.ops + [Swapping(fb)])[k := Releasing(s.p.scanout)], k) == s.ops;
  }

  lemma SwapRun(s: System, fb: Option<Framebuffer>)
    requires s.alive
    ensures var k := |s.ops|;
      Moved(s, Run(s, SwapSteps(k, fb)), s.p.(scanout := fb))
  {
    SwapMoves(s, fb);
    RunOne(s, SwapStart(fb));
    RunMore(s, [SwapStart(fb)], SwapExchange(|s.ops|));
    RunMore(s, [SwapStart(fb)] + [SwapExchange(|s.ops|)], Release(|s.ops|));
  }

  lemma InstallRun(s: System, s0: System, was: Plane, now: Plane, clips: seq<Rect>)
    requires s.alive && |s.p.dirts| <= MAX_DIRTS && now.fb.Some?
    requires s.ops == s0.ops && s.p.needsModeset == s0.p.needsModeset
    ensures Moved(s, Run(s, InstallSteps(s0, was, now, clips)), Installed(s.p, was, now, clips))
  {
    var force: seq<Action> := if ForcesModeset(was, now) then [Locked(ForceModeset)] else [];
    ForceRun(s, was, now);
    if Installs(s0.p, was, now) {
      SwapAndMark(Run(s, force), now.fb, clips);
      RunAppend(s, force, SwapSteps(|s.ops|, now.fb) + Marks(clips));
    } else {
      assert InstallSteps(s0, was, now, clips) == force;
    }
  }

  lemma ForceRun(s: System, was: Plane, now: Plane)
    requires s.alive && |s.p.dirts| <= MAX_DIRTS
    ensures var force: seq<Action> := if ForcesModeset(was, now) then [Locked(ForceModeset)] else [];
      Moved(s, Run(s, force), if ForcesModeset(was, now) then s.p.(needsModeset := true) else s.p)
  {
    if ForcesModeset(was, now) {
      CallRun(s, ForceModeset);
    }
  }

  lemma SwapAndMark(s: System, fb: Option<Framebuffer>, clips: seq<Rect>)
    requires s.alive && |s.p.dirts| <= MAX_DIRTS
    ensures Moved(s, Run(s, SwapSteps(|s.ops|, fb) + Marks(clips)), MarkAll(s.p.(scanout := fb), clips))
  {
    SwapRun(s, fb);
    RunAppend(s, SwapSteps(|s.ops|, fb), Marks(clips));
    MarksRun(Run(s, SwapSteps(|s.ops|, fb)), clips);
  }

  lemma DpmsRun(s: System, mode: int)
    requires s.alive && |s.p.dirts| <= MAX_DIRTS && s.commit.Idle?
    ensures Moved(s, Run(s, DpmsSteps(mode)), DpmsNotify(s.p, s.console, mode))
  {
    RunAppend(s, [DpmsStart(mode)], [DpmsPost]);
    RunOne(s, DpmsStart(mode));
    RunOne(Step(s, DpmsStart(mode)), DpmsPost);
  }

  lemma NotifyRun(s: System, was: Plane, now: Plane)
    requires s.commit.Idle?
    requires s.alive && |s.p.dirts| <= MAX_DIRTS
    ensures var p := NotifyCrtc(s.p, s.console, was, now);
      && Moved(s, Run(s, NotifySteps(was, now)), p)
      && p.dirts == s.p.dirts && p.needsModeset == s.p.needsModeset
  {
    if was.crtc.None? && now.crtc.Some? {
      DpmsRun(s, DPMS_ON);
    } else if was.crtc.Some? && now.crtc.None? {
      DpmsRun(s, DPMS_OFF);
    }
  }

  /** A flip that is not interrupted does to the painter what `PlaneUpdate` says; as a run of the
      protocol it keeps every invariant, and may be interleaved with anything else. */
  lemma FlipIsRun(s: System, was: Plane, now: Plane, clips: seq<Rect>)
    requires s.alive && |s.p.dirts| <= MAX_DIRTS && s.commit.Idle?
    ensures Moved(s, Run(s, FlipSteps(s, was, now, clips)), PlaneUpdate(s.p, s.console, was, now, clips))
  {
    var notify := NotifySteps(was, now);
    NotifyRun(s, was, now);
    var s1 := Run(s, notify);
    if now.fb.Some? {
      var install := InstallSteps(s, was, now, clips);
      InstallRun(s1, s, was, now, clips);
      RunAppend(s, notify, install);
      var s2 := Run(s1, install);
      var full: seq<Action> := if s2.p.dirts == [] then [Locked(Mark(Full(now.fb.value)))] else [];
      RunAppend(s, notify + install, full);
      if full != [] {
        CallRun(s2, Mark(Full(now.fb.value)));
      }
    }
  }

  /** After a client connects, an uninterrupted flip leaves its framebuffer as the scanout with all of its
      damage recorded and something to grab, even if the plane had that framebuffer before. */
  lemma FlipAfterConnect(s: System, file: nat, space: nat, edidLength: int, was: Plane, now: Plane, clips: seq<Rect>)
    requires s.alive && |s.p.dirts| <= MAX_DIRTS && s.commit.Idle? && now.fb.Some?
    requires MIN_EDID_SIZE <= edidLength <= MAX_EDID_SIZE
    ensures var t := Step(s, Locked(ConnectClient(file, space, edidLength)));
      var u := Run(t, FlipSteps(t, was, now, clips));
      u.p.scanout == now.fb && u.p.dirts != [] && Modeset.Recorded(u.p.dirts, now.fb.value, clips)
  {
    var t := Step(s, Locked(ConnectClient(file, space, edidLength)));
    ConnectOwes(s.p, file, space, edidLength);
    StepByCall(s, Locked(ConnectClient(file, space, edidLength)));
    hide Step, Run, FlipSteps, PlaneUpdate;
    FlipIsRun(t, was, now, clips);
    FlipInstallsIff(t.p, t.console, was, now, clips);
  }

  // ---- A flip that is interrupted ----

  /** The action takes the scanout buffer away: the client disconnects, or the painter is cleaned up. */
  predicate Drops(s: System, a: Action) {
    a.CleanUp? || (a.DisconnectClient? && Disconnect(s.p, a.file).1.None?)
  }

  predicate Dropped(s: System, actions: seq<Action>) {
    actions != [] &&
    var t, a := Run(s, actions[..|actions| - 1]), actions[|actions| - 1];
    Dropped(s, actions[..|actions| - 1]) || (Enabled(t, a) && Drops(t, a))
  }

  lemma StepKeepsShown(s: System, a: Action)
    requires Enabled(s, a) && !a.SwapExchange?
    ensures Step(s, a).p.scanout == if Drops(s, a) then None else s.p.scanout
  {
    if ByCall(a) {
      StepByCall(s, a);
      if CallOf(s, a).Some? {
        CallKeepsScanout(s.p, s.console, CallOf(s, a).value);
      }
    }
  }

  /** With no other exchange, the scanout is still there exactly when nothing dropped it. */
  lemma {:induction false} ShownUnlessDropped(s: System, actions: seq<Action>)
    requires forall i :: 0 <= i < |actions| ==> !actions[i].SwapExchange?
    ensures Run(s, actions).p.scanout == if Dropped(s, actions) then None else s.p.scanout
  {
    if actions != [] {
      var stem, a := actions[..|actions| - 1], actions[|actions| - 1];
      assert a == actions[|actions| - 1] && !a.SwapExchange?;
      ShownUnlessDropped(s, stem);
      if Enabled(Run(s, stem), a) {
        StepKeepsShown(Run(s, stem), a);
      }
    }
  }

  /** After the exchange of a flip, and whatever comes between, a clip it then marks is recorded exactly
      when the scanout was not dropped meanwhile, or all of the clip was recorded already. */
  lemma InterruptedMarkIff(s: System, between: seq<Action>, fb: Framebuffer, clip: Rect)
    requires s.p.scanout == Some(fb)
    requires forall i :: 0 <= i < |between| ==> !between[i].SwapExchange?
    requires Enabled(Run(s, between), Locked(Mark(clip)))
    ensures var t := Run(s, between);
      Modeset.Recorded(Step(t, Locked(Mark(clip))).p.dirts, fb, [clip]) <==>
        !Dropped(s, between) || Modeset.Recorded(t.p.dirts, fb, [clip])
  {
    var t := Run(s, between);
    ShownUnlessDropped(s, between);
    StepByCall(t, Locked(Mark(clip)));
    if !Dropped(s, between) {
      forall k, x, y | 0 <= k < 1 && Clipped(fb, [clip][k], x, y)
        ensures Covered(MarkDirty(t.p, clip).dirts, x, y)
      {
        MarkRecords(t.p, clip, x, y);
      }
    }
  }
}
