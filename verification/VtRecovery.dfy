/** What follows an OFF of the console notifier: the flush that answers it, and the flush that clears the
    modeset it forced without turning the display on. */
module VtRecovery {
  import opened Wrappers
  import opened DirtyRects
  import opened Rects
  import opened Events
  import opened PainterModel
  import opened Protocol
  import opened ProtocolRuns
  import opened VtSwitch

  // ---- The modeset is forced ----

  predicate EndsSession(a: Action) {
    a.DisconnectClient? || a.CleanUp? || (a.Locked? && a.call.ConnectClient?)
  }

  predicate SameSession(actions: seq<Action>) {
    forall i :: 0 <= i < |actions| ==> !EndsSession(actions[i])
  }

  /** A flush is about to clear the flag and has decided not to notify. */
  predicate Dropping(s: System) {
    && s.commit.Flushing? && !s.commit.flight.notifies
    && (s.commit.flight.stage.ReadFormat? || s.commit.flight.stage.PostMode? || s.commit.flight.stage.ClearFlag?)
  }

  /** A flush that posted its mode and then, as the `n`th post or later, DPMS ON to a client. */
  predicate Lit(f: Flight, log: seq<Posted>, n: nat) {
    && f.st.active && f.announced.Some? && f.notified.Some? && f.announced.value < f.notified.value
    && ModeAt(log, f.base, f.announced.value, f.st.mode)
    && n <= f.notified.value < |log| && log[f.notified.value] == Posted(Dpms(DPMS_ON), true)
  }

  /** Since `t` a flush finished that did. */
  predicate Relit(t: System, u: System) {
    exists i :: |t.h.flushes| <= i < |u.h.flushes| && Lit(u.h.flushes[i], u.h.log, |t.h.log|)
  }

  /** A flush has cleared the flag and will turn the display on. */
  predicate Lighting(f: Flight, log: seq<Posted>, n: nat) {
    && f.announces && f.notifies && !f.unheard && f.announced.Some?
    && (f.stage.TakeConsole? || f.stage.PostDpms? || (DpmsPosted(f) && Lit(f, log, n)))
  }

  /** A modeset is owed, and whatever clears it will turn the display on. */
  predicate Owed(u: System) {
    u.p.needsModeset && u.notifier.None? && !Dropping(u)
  }

  predicate Recovering(t: System, u: System) {
    && u.alive && Received(u.p) && CommitHonest(u)
    && |t.h.log| <= |u.h.log| && |t.h.flushes| <= |u.h.flushes|
    && (Relit(t, u) || Owed(u) || (u.commit.Flushing? && Lighting(u.commit.flight, u.h.log, |t.h.log|)))
  }

  lemma LitInLonger(f: Flight, log: seq<Posted>, more: seq<Posted>, n: nat)
    requires Lit(f, log, n)
    ensures Lit(f, log + more, n)
  {
  }

  lemma RelitStays(t: System, u: System, a: Action)
    requires Relit(t, u) && Enabled(u, a)
    ensures Relit(t, Step(u, a))
  {
    LogGrows(u, a);
    FlushesGrow(u, a);
    hide Step, Lit;
    var i :| |t.h.flushes| <= i < |u.h.flushes| && Lit(u.h.flushes[i], u.h.log, |t.h.log|);
    LitInLonger(u.h.flushes[i], u.h.log, VtSwitch.Logged(u, a), |t.h.log|);
    assert Step(u, a).h.flushes[i] == u.h.flushes[i];
  }

  lemma SessionStays(u: System, a: Action)
    requires Enabled(u, a) && !EndsSession(a) && u.alive && Received(u.p)
    ensures Step(u, a).alive && Received(Step(u, a).p)
  {
    if ByCall(a) {
      StepByCall(u, a);
      if CallOf(u, a).Some? {
        FlagIsKept(u.p, u.console, CallOf(u, a).value);
      }
    }
  }

  lemma ClearLights(t: System, u: System)
    requires Recovering(t, u) && Owed(u) && Enabled(u, FlushStep) && u.commit.flight.stage.ClearFlag?
    ensures var v := Step(u, FlushStep); v.commit.Flushing? && Lighting(v.commit.flight, v.h.log, |t.h.log|)
  {
    FlushStepIs(u);
  }

  lemma OwedFlushStep(u: System)
    requires Owed(u) && CommitHonest(u) && Enabled(u, FlushStep) && !u.commit.flight.stage.ClearFlag?
    ensures Owed(Step(u, FlushStep))
  {
    FlushStepIs(u);
    if StageCall(u.commit.flight).Some? {
      FlagIsKept(u.p, u.console, StageCall(u.commit.flight).value);
    }
  }

  lemma OwedOtherStep(u: System, a: Action)
    requires Owed(u) && Enabled(u, a) && !EndsSession(a) && !a.FlushStep?
    ensures Owed(Step(u, a))
  {
    if ByCall(a) {
      StepByCall(u, a);
      if CallOf(u, a).Some? {
        FlagIsKept(u.p, u.console, CallOf(u, a).value);
      }
    }
  }

  lemma PostLights(u: System, n: nat)
    requires Enabled(u, FlushStep) && Received(u.p) && n <= |u.h.log|
    requires CommitHonest(u) && Lighting(u.commit.flight, u.h.log, n) && u.commit.flight.stage.PostDpms?
    ensures var v := Step(u, FlushStep); v.commit.Flushing? && Lighting(v.commit.flight, v.h.log, n)
  {
    FlushStepIs(u);
    LogGrows(u, FlushStep);
  }

  lemma LightingFlushStep(t: System, u: System)
    requires Enabled(u, FlushStep) && Received(u.p) && |t.h.log| <= |u.h.log| && |t.h.flushes| <= |u.h.flushes|
    requires CommitHonest(u) && Lighting(u.commit.flight, u.h.log, |t.h.log|)
    ensures var v := Step(u, FlushStep);
      Relit(t, v) || (v.commit.Flushing? && Lighting(v.commit.flight, v.h.log, |t.h.log|))
  {
    var f := u.commit.flight;
    if f.stage.PostDpms? {
      PostLights(u, |t.h.log|);
    } else {
      FlushStepIs(u);
      LogGrows(u, FlushStep);
      FlushesGrow(u, FlushStep);
      if f.stage.SendReady? {
        assert Step(u, FlushStep).h.flushes[|u.h.flushes|] == f;
      } else if f.stage.HandVblank? {
        LitInLonger(f, u.h.log, VtSwitch.Logged(u, FlushStep), |t.h.log|);
      }
    }
  }

  lemma LightingOtherStep(u: System, a: Action, n: nat)
    requires Enabled(u, a) && !a.FlushStep? && u.commit.Flushing? && Lighting(u.commit.flight, u.h.log, n)
    ensures var v := Step(u, a); v.commit == u.commit && Lighting(v.commit.flight, v.h.log, n)
  {
    LogGrows(u, a);
    if DpmsPosted(u.commit.flight) {
      LitInLonger(u.commit.flight, u.h.log, VtSwitch.Logged(u, a), n);
    }
  }

  lemma StepKeepsRecovering(t: System, u: System, a: Action)
    requires Recovering(t, u) && Enabled(u, a) && !EndsSession(a)
    ensures Recovering(t, Step(u, a))
  {
    SessionStays(u, a);
    StepKeepsCommitHonest(u, a);
    LogGrows(u, a);
    FlushesGrow(u, a);
    hide Step, CommitHonest, Lit;
    if Relit(t, u) {
      RelitStays(t, u, a);
    } else if Owed(u) {
      if !a.FlushStep? {
        OwedOtherStep(u, a);
      } else if u.commit.flight.stage.ClearFlag? {
        ClearLights(t, u);
      } else {
        OwedFlushStep(u);
      }
    } else if a.FlushStep? {
      LightingFlushStep(t, u);
    } else {
      LightingOtherStep(u, a, |t.h.log|);
    }
  }

  lemma {:induction false} RunKeepsRecovering(t: System, u: System, actions: seq<Action>)
    requires Recovering(t, u) && SameSession(actions)
    ensures Recovering(t, Run(u, actions))
  {
    hide Recovering, EndsSession;
    if actions != [] {
      var stem, a := actions[..|actions| - 1], actions[|actions| - 1];
      RunKeepsRecovering(t, u, stem);
      if Enabled(Run(u, stem), a) {
        StepKeepsRecovering(t, Run(u, stem), a);
      }
    }
  }

  lemma ForcedRecovers(t: System)
    requires Enabled(t, VtStep) && t.notifier == Some(true) && Received(t.p) && CommitHonest(t) && !Dropping(t)
    ensures Recovering(t, Step(t, VtStep))
  {
    StepKeepsCommitHonest(t, VtStep);
  }

  /** A flush that starts now decides to announce its mode; uninterrupted, and with a scanout buffer, it
      sends the mode, then DPMS ON, and leaves nothing owed and the notifier nothing to send. */
  predicate Answers(u: System, crtc: nat, st: CrtcState) {
    && (Enabled(u, FlushStart(crtc, st)) ==>
          var f := Step(u, FlushStart(crtc, st)).commit.flight; f.owed && f.quiet && f.announces)
    && (u.p.scanout.Some? ==>
          var q := CrtcFlush(u.p, u.console, crtc, st);
          && q.queue.accepted == u.p.queue.accepted
               + [ModeEvent(st.mode, u.p.scanout.value.format)] + [Dpms(DPMS_ON)]
               + (if ReadyDue(u.p) then [UpdateReady] else [])
          && !q.needsModeset && !VtSwitched(q, u.console))
  }

  /** The notifier, having sent OFF, forces a modeset while no flush is about to clear the flag without
      turning the display on. From then on, through any run that keeps the session, until some flush has
      posted its mode and then DPMS ON: whenever no commit is under way the modeset is owed and the notifier
      has nothing to send, and the next active flush announces its mode and, with a scanout buffer, sends
      DPMS ON after it and leaves nothing owed and the notifier nothing to send. */
  lemma VtSwitchRecovers(before: seq<Action>, later: seq<Action>, crtc: nat, st: CrtcState)
    requires var t := Run(START, before);
      Enabled(t, VtStep) && t.notifier == Some(true) && Received(t.p) && !Dropping(t)
    requires SameSession(later) && st.active
    ensures var t := Run(START, before);
      var u := Run(Step(t, VtStep), later);
      u.commit.Idle? && !Relit(t, u) ==>
        && u.p.needsModeset && u.notifier.None? && !VtSwitched(u.p, u.console)
        && Answers(u, crtc, st)
  {
    var t := Run(START, before);
    var u := Run(Step(t, VtStep), later);
    RunKeepsHonest(before);
    ForcedRecovers(t);
    RunKeepsRecovering(t, Step(t, VtStep), later);
    if Owed(u) && u.p.scanout.Some? {
      FlushRecovers(u.p, u.console, crtc, st);
    }
  }

  // ---- A flush that clears the flag without turning the display on ----

  /** DPMS ON was posted to a client since `t`. */
  predicate TurnedOn(t: System, u: System) {
    exists k :: |t.h.log| <= k < |u.h.log| && u.h.log[k] == Posted(Dpms(DPMS_ON), true)
  }

  /** Nothing is owed and no commit under way: the next flush that changes nothing says nothing. */
  predicate Settled(u: System) {
    u.commit.Idle? && !u.p.needsModeset
  }

  lemma RelitTurnsOn(t: System, u: System)
    requires Relit(t, u)
    ensures TurnedOn(t, u)
  {
    var i :| |t.h.flushes| <= i < |u.h.flushes| && Lit(u.h.flushes[i], u.h.log, |t.h.log|);
    var k := u.h.flushes[i].notified.value;
    assert u.h.log[k] == Posted(Dpms(DPMS_ON), true);
  }

  /** No DPMS ON since the `n`th post, and none to come from the commit under way. */
  predicate Unlit(s: System, n: nat) {
    && n <= |s.h.log| && (forall k :: n <= k < |s.h.log| ==> s.h.log[k].event != Dpms(DPMS_ON))
    && (s.commit.Flushing? ==>
          var f := s.commit.flight;
          !f.notifies && !f.stage.DecideDpms? && !f.stage.TakeConsole? && !f.stage.PostDpms?)
  }

  lemma StepKeepsUnlit(s: System, n: nat)
    requires Unlit(s, n) && Enabled(s, FlushStep)
    ensures Unlit(Step(s, FlushStep), n)
  {
    FlushStepIs(s);
    LogGrows(s, FlushStep);
  }

  lemma {:induction false} StepsKeepUnlit(s: System, n: nat, k: nat)
    requires Unlit(s, n)
    ensures Unlit(Run(s, Steps(k)), n)
    decreases k
  {
    hide Unlit;
    if k > 0 {
      RunAppend(s, [FlushStep], Steps(k - 1));
      RunOne(s, FlushStep);
      if Enabled(s, FlushStep) {
        StepKeepsUnlit(s, n);
      }
      StepsKeepUnlit(Run(s, [FlushStep]), n, k - 1);
    }
  }

  /** What the rest of such a flush clears. */
  lemma RestClears(f: Flight, p: PainterState, console: int)
    requires !f.notifies && (f.stage.ReadFormat? || f.stage.PostMode? || f.stage.ClearFlag?)
    requires f.stage.ReadFormat? ==> p.scanout.Some?
    ensures !FlushRest(f, p, console).needsModeset
  {
  }

  lemma DroppingEnds(s: System)
    requires Dropping(s) && s.alive && |s.p.dirts| <= MAX_DIRTS && s.p.scanout.Some?
    ensures var u := Run(s, Steps(8)); Settled(u) && Unlit(u, |s.h.log|)
  {
    hide FlushRest, Run, Steps, Step;
    FinishRun(s, 8);
    RestClears(s.commit.flight, s.p, s.console);
    StepsKeepUnlit(s, |s.h.log|, 8);
  }

  function Provide(s: System): seq<Action> {
    [SwapStart(Some(SCREEN))] + [SwapExchange(|s.ops|)]
  }

  lemma ProvideRun(s: System)
    requires s.alive
    ensures var u := Run(s, Provide(s));
      && u.p == s.p.(scanout := Some(SCREEN)) && u.alive && u.commit == s.commit && u.h == s.h
  {
    RunOne(s, SwapStart(Some(SCREEN)));
    RunMore(s, [SwapStart(Some(SCREEN))], SwapExchange(|s.ops|));
  }

  /** With a scanout buffer, which it may get meanwhile, the flush clears the flag and the display stays off. */
  function Finishing(s: System): seq<Action> {
    Provide(s) + Steps(8)
  }

  lemma FinishingRun(s: System)
    requires Dropping(s) && s.alive && |s.p.dirts| <= MAX_DIRTS
    ensures var u := Run(s, Finishing(s)); Settled(u) && Unlit(u, |s.h.log|)
  {
    ProvideRun(s);
    RunAppend(s, Provide(s), Steps(8));
    DroppingEnds(Run(s, Provide(s)));
  }

  lemma {:induction false} StepsAreSteps(k: nat)
    ensures forall i :: 0 <= i < |Steps(k)| ==> Steps(k)[i] == FlushStep
  {
    if k > 0 {
      StepsAreSteps(k - 1);
    }
  }

  lemma FinishingKeepsSession(s: System)
    ensures SameSession(Finishing(s))
  {
    StepsAreSteps(8);
  }

  /** In every run: the notifier, having sent OFF, forces a modeset. Whatever happens afterwards in the
      session, once nothing is owed and no commit under way DPMS ON has been sent, exactly when no flush that
      decided not to notify stands between that decision and its clearing of the flag. */
  lemma OffTurnsOnIff(before: seq<Action>)
    requires var t := Run(START, before); Enabled(t, VtStep) && t.notifier == Some(true) && Received(t.p)
    ensures var t := Run(START, before);
      (forall later | SameSession(later) :: Settled(Run(Step(t, VtStep), later)) ==>
         TurnedOn(t, Run(Step(t, VtStep), later))) <==> !Dropping(t)
  {
    var t := Run(START, before);
    var s := Step(t, VtStep);
    RunKeepsHonest(before);
    if Dropping(t) {
      ForceStep(t);
      FinishingRun(s);
      FinishingKeepsSession(s);
      assert Settled(Run(s, Finishing(s))) && !TurnedOn(t, Run(s, Finishing(s)));
    } else {
      ForcedRecovers(t);
      forall later | SameSession(later) && Settled(Run(s, later))
        ensures TurnedOn(t, Run(s, later))
      {
        RunKeepsRecovering(t, s, later);
        assert Relit(t, Run(s, later));
        RelitTurnsOn(t, Run(s, later));
      }
    }
  }

  /** Only a flush of a changed mode that left the display on, and began with nothing owed, can stand there. */
  lemma DroppingChangesModeOnly(actions: seq<Action>)
    requires Dropping(Run(START, actions))
    ensures var f := Run(START, actions).commit.flight;
      f.st.active && f.st.modeChanged && !f.st.activeChanged && !f.owed
  {
    RunKeepsHonest(actions);
  }

  /** In every run the flush that clears the flag has posted its mode. */
  lemma ClearingPostedMode(actions: seq<Action>)
    requires Clearing(Run(START, actions))
    ensures var s := Run(START, actions);
      var f := s.commit.flight;
      f.announced.Some? && ModeAt(s.h.log, f.base, f.announced.value, f.st.mode)
  {
    RunKeepsHonest(actions);
  }

  // ---- A display that stays off ----

  /** The client was sent OFF, then a mode and no DPMS ON, and no flush or notifier owes it one. */
  predicate StaysOff(s: System, u: System, st: CrtcState)
    requires s.p.scanout.Some?
  {
    && Settled(u) && u.notifier.None?
    && u.p.queue.accepted == s.p.queue.accepted
         + [Dpms(DPMS_OFF)] + [ModeEvent(st.mode, s.p.scanout.value.format)]
         + (if ReadyDue(s.p) then [UpdateReady] else [])
  }

  /** The notifier is past its guard while a flush is about to post its mode. */
  function Crossing(crtc: nat, st: CrtcState, console: int): seq<Action> {
    [FlushStart(crtc, st)] + [FlushStep] + [FlushStep] + ([SwitchConsole(console)] + [VtStart])
  }

  predicate Crossed(s: System, t: System, st: CrtcState)
    requires s.p.scanout.Some?
  {
    && t.p == s.p && t.alive && t.notifier == Some(false) && t.commit.Flushing?
    && t.commit.flight.stage == PostMode(s.p.scanout.value.format)
    && t.commit.flight.st == st && !t.commit.flight.notifies
  }

  lemma CrossingRun(s: System, crtc: nat, st: CrtcState)
    requires Resting(s) && st.active && st.modeChanged && !st.activeChanged
    ensures Crossed(s, Run(s, Crossing(crtc, st, s.p.fgConsole + 1)), st)
  {
    var posting := [FlushStart(crtc, st)] + [FlushStep] + [FlushStep];
    PostingRun(s, crtc, st);
    SwitchSteps(Run(s, posting), s.p.fgConsole + 1);
    RunAppend(s, posting, [SwitchConsole(s.p.fgConsole + 1)] + [VtStart]);
  }

  /** The client was sent OFF and the mode, and a modeset was forced that the flush is about to clear. */
  predicate ForcedUnder(s: System, u: System, st: CrtcState)
    requires s.p.scanout.Some?
  {
    && u.p == s.p.(queue := u.p.queue, needsModeset := true) && u.alive && u.notifier.None?
    && u.commit.Flushing? && u.commit.flight.stage.ClearFlag? && !u.commit.flight.notifies
    && u.p.queue.accepted
         == s.p.queue.accepted + [Dpms(DPMS_OFF)] + [ModeEvent(st.mode, s.p.scanout.value.format)]
  }

  lemma ForcedBeforeClear(s: System, t: System, st: CrtcState)
    requires s.p.scanout.Some? && Crossed(s, t, st) && Received(s.p) && |s.p.dirts| <= MAX_DIRTS
    ensures ForcedUnder(s, Run(t, [VtStep] + [FlushStep] + [VtStep]), st)
  {
    hide Run, Recorded, FlushCount;
    RunOne(t, VtStep);
    RunMore(t, [VtStep], FlushStep);
    RunMore(t, [VtStep] + [FlushStep], VtStep);
  }

  lemma ClearedRest(f: Flight, p: PainterState, console: int)
    requires f.stage.ClearFlag? && !f.notifies && Received(p)
    ensures var q := FlushRest(f, p, console);
      q.queue.accepted == p.queue.accepted + (if ReadyDue(p) then [UpdateReady] else []) && !q.needsModeset
  {
    HandingAccepts(p.(needsModeset := false), f.crtc, f.st.event);
  }

  lemma ClearedStaysOff(s: System, u: System, st: CrtcState)
    requires s.p.scanout.Some? && ForcedUnder(s, u, st) && Received(s.p) && |s.p.dirts| <= MAX_DIRTS
    ensures StaysOff(s, Run(u, Steps(8)), st)
  {
    hide FlushRest, Run, Steps;
    FinishRun(u, 8);
    ClearedRest(u.commit.flight, u.p, u.console);
  }

  /** From any resting state a change of mode alone, and one console switch, can leave the display off: the
      OFF is answered by the mode, and the flush clears the modeset that the notifier forced meanwhile. */
  lemma OffCanStay(s: System, crtc: nat, st: CrtcState)
    requires Resting(s) && st.active && st.modeChanged && !st.activeChanged
    ensures exists actions :: StaysOff(s, Run(s, actions), st)
  {
    hide Run, Steps, Crossed, ForcedUnder, StaysOff;
    var crossing, forcing := Crossing(crtc, st, s.p.fgConsole + 1), [VtStep] + [FlushStep] + [VtStep];
    CrossingRun(s, crtc, st);
    ForcedBeforeClear(s, Run(s, crossing), st);
    ClearedStaysOff(s, Run(Run(s, crossing), forcing), st);
    RunAppend(s, crossing, forcing);
    RunAppend(s, crossing + forcing, Steps(8));
    assert StaysOff(s, Run(s, crossing + forcing + Steps(8)), st);
  }

  const NEW_MODE := CrtcState(true, true, false, DisplayMode(1280, 1024, 60), None)

  lemma OffThatStaysIsReachable()
    ensures exists before, actions ::
      && Resting(Run(START, before))
      && StaysOff(Run(START, before), Run(Run(START, before), actions), NEW_MODE)
  {
    RestingIsReachable();
    var before :| Resting(Run(START, before));
    OffCanStay(Run(START, before), 0, NEW_MODE);
  }
}
