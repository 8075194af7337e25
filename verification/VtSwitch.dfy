/** Console switches and the crtc flush that repairs them, step by step: what an interrupted flush still
    reports, when a mode is sure to be announced before another OFF, and how an OFF gets lost. */
module VtSwitch {
  import opened Wrappers
  import opened DirtyRects
  import opened Rects
  import opened Events
  import opened PainterModel
  import opened Protocol
  import opened ProtocolRuns

  // ---- What a flush posts, however it is interrupted ----

  predicate BeforeClear(f: Flight) {
    f.stage.DecideDpms? || f.stage.ReadFormat? || f.stage.PostMode? || f.stage.ClearFlag?
  }

  predicate ModePosted(f: Flight) {
    !f.stage.DecideDpms? && !f.stage.ReadFormat? && !f.stage.PostMode?
  }

  predicate DpmsPosted(f: Flight) {
    f.stage.HandVblank? || f.stage.SendReady?
  }

  predicate Announces(e: Event, mode: DisplayMode) {
    e.ModeChanged? && e == ModeEvent(mode, e.format)
  }

  /** The post at `k` came after `base`, and is as said. */
  predicate ModeAt(log: seq<Posted>, base: nat, k: nat, mode: DisplayMode) {
    base <= k < |log| && Announces(log[k].event, mode)
  }

  predicate DpmsAt(log: seq<Posted>, base: nat, k: nat, st: CrtcState) {
    base <= k < |log| && log[k].event == Dpms(DpmsOf(st))
  }

  /** What a flush has posted lies in the log after its beginning: the mode first, then DPMS. */
  predicate LogHonest(f: Flight, log: seq<Posted>) {
    && f.base <= |log|
    && (f.announced.Some? ==> ModeAt(log, f.base, f.announced.value, f.st.mode))
    && (f.notified.Some? ==> DpmsAt(log, f.base, f.notified.value, f.st))
    && (f.announced.Some? && f.notified.Some? ==> f.announced.value < f.notified.value)
  }

  /** What it has posted by the stage it has reached. */
  predicate StageHonest(f: Flight) {
    && (ModePosted(f) && f.announces ==> f.bare || f.announced.Some?)
    && (DpmsPosted(f) && f.notifies ==> f.unheard || f.notified.Some?)
    && (f.notified.Some? ==> DpmsPosted(f))
    && (f.owed && f.st.active ==> f.announces)
    && (f.owed && !f.stage.DecideDpms? ==> f.notifies)
    && (f.stage.ReadFormat? || f.stage.PostMode? || f.stage.ClearFlag? ==> f.announces)
    && (f.announces ==> f.st.active && (f.st.modeChanged || f.owed))
    && (f.st.activeChanged && !f.stage.DecideDpms? ==> f.notifies)
    && (f.stage.TakeConsole? || f.stage.PostDpms? ==> f.notifies && !f.unheard)
    && (BeforeClear(f) ==> !f.bare && !f.unheard)
  }

  predicate FlightHonest(f: Flight, log: seq<Posted>) {
    LogHonest(f, log) && StageHonest(f)
  }

  /** While the flush of an owed modeset has not cleared the flag, the modeset stays owed; and if the
      console notifier was not at work when it began, it is not now. */
  predicate CommitHonest(s: System) {
    s.commit.Flushing? ==>
      var f := s.commit.flight;
      && FlightHonest(f, s.h.log)
      && (f.owed && BeforeClear(f) ==> s.p.needsModeset)
      && (f.owed && f.quiet && BeforeClear(f) ==> s.notifier.None?)
  }

  predicate FlushesHonest(h: History) {
    forall i :: 0 <= i < |h.flushes| ==> h.flushes[i].stage.SendReady? && FlightHonest(h.flushes[i], h.log)
  }

  lemma FlagIsKept(p: PainterState, console: int, call: Call)
    requires |p.dirts| <= MAX_DIRTS
    ensures var q := Apply(p, console, call);
      && (p.needsModeset && !call.ClearModeset? ==> q.needsModeset)
      && (call.ConnectClient? || (q.filp == p.filp && q.connected == p.connected))
  {
  }

  /** What an action adds to the log. */
  function Logged(s: System, a: Action): seq<Posted>
    requires Enabled(s, a)
  {
    if ByCall(a) && CallOf(s, a).Some? && CallOf(s, a).value.Post?
    then [Posted(CallOf(s, a).value.event, Received(s.p))] else []
  }

  lemma LogGrows(s: System, a: Action)
    requires Enabled(s, a)
    ensures Step(s, a).h.log == s.h.log + Logged(s, a)
  {
    if ByCall(a) {
      StepByCall(s, a);
    }
  }

  lemma HonestInLonger(f: Flight, log: seq<Posted>, more: seq<Posted>)
    requires FlightHonest(f, log)
    ensures FlightHonest(f, log + more)
  {
  }

  lemma AdvancedStage(f: Flight, p: PainterState, n: nat)
    requires StageHonest(f) && !f.stage.SendReady? && (f.owed && BeforeClear(f) ==> p.needsModeset)
    ensures StageHonest(Advanced(f, p, n))
  {
  }

  lemma AdvancedLog(f: Flight, p: PainterState, log: seq<Posted>, received: bool)
    requires FlightHonest(f, log) && !f.stage.SendReady?
    ensures var call := StageCall(f);
      var more := if call.Some? && call.value.Post? then [Posted(call.value.event, received)] else [];
      LogHonest(Advanced(f, p, |log|), log + more)
  {
    var call := StageCall(f);
    HonestInLonger(f, log, if call.Some? && call.value.Post? then [Posted(call.value.event, received)] else []);
  }

  lemma FlushStepKeepsHonest(s: System)
    requires CommitHonest(s) && Enabled(s, FlushStep)
    ensures CommitHonest(Step(s, FlushStep))
  {
    var f := s.commit.flight;
    if !f.stage.SendReady? {
      AdvancedStage(f, s.p, |s.h.log|);
      AdvancedLog(f, s.p, s.h.log, Received(s.p));
      LogGrows(s, FlushStep);
      FlushStepKeepsOwed(s);
    }
  }

  lemma FlushStepKeepsOwed(s: System)
    requires CommitHonest(s) && Enabled(s, FlushStep) && !s.commit.flight.stage.SendReady?
    ensures var t, f := Step(s, FlushStep), Advanced(s.commit.flight, s.p, |s.h.log|);
      && t.commit == Flushing(f)
      && (f.owed && BeforeClear(f) ==> t.p.needsModeset)
      && (f.owed && f.quiet && BeforeClear(f) ==> t.notifier.None?)
  {
    StepByCall(s, FlushStep);
    if CallOf(s, FlushStep).Some? {
      FlagIsKept(s.p, s.console, CallOf(s, FlushStep).value);
    }
  }

  lemma StepKeepsCommitHonest(s: System, a: Action)
    requires CommitHonest(s) && Enabled(s, a)
    ensures CommitHonest(Step(s, a))
  {
    if a.FlushStep? {
      FlushStepKeepsHonest(s);
    } else if s.commit.Flushing? {
      LogGrows(s, a);
      HonestInLonger(s.commit.flight, s.h.log, Logged(s, a));
      if ByCall(a) {
        StepByCall(s, a);
        if CallOf(s, a).Some? {
          FlagIsKept(s.p, s.console, CallOf(s, a).value);
        }
      }
    }
  }

  lemma StepKeepsFlushesHonest(s: System, a: Action)
    requires CommitHonest(s) && FlushesHonest(s.h) && Enabled(s, a)
    ensures FlushesHonest(Step(s, a).h)
  {
    LogGrows(s, a);
    FlushesGrow(s, a);
    var t := Step(s, a);
    forall i | 0 <= i < |t.h.flushes|
      ensures t.h.flushes[i].stage.SendReady? && FlightHonest(t.h.flushes[i], t.h.log)
    {
      HonestInLonger(t.h.flushes[i], s.h.log, Logged(s, a));
    }
  }

  lemma ByCallFlushes(s: System, a: Action)
    requires Enabled(s, a) && ByCall(a)
    ensures Step(s, a).h.flushes == Noted(s.h, s, a).flushes
  {
  }

  lemma FlushesGrow(s: System, a: Action)
    requires Enabled(s, a)
    ensures Step(s, a).h.flushes == s.h.flushes +
      if a.FlushStep? && s.commit.flight.stage.SendReady? then [s.commit.flight] else []
  {
    if ByCall(a) {
      ByCallFlushes(s, a);
    }
  }

  lemma {:induction false} RunKeepsHonest(actions: seq<Action>)
    ensures var s := Run(START, actions); CommitHonest(s) && FlushesHonest(s.h)
  {
    if actions != [] {
      var stem := actions[..|actions| - 1];
      var a := actions[|actions| - 1];
      RunKeepsHonest(stem);
      if Enabled(Run(START, stem), a) {
        StepKeepsCommitHonest(Run(START, stem), a);
        StepKeepsFlushesHonest(Run(START, stem), a);
      }
    }
  }

  /** A finished flush has posted what it decided to, the mode before DPMS, unless it found no scanout
      buffer or no client; and it decided to do both if it was active and began with a modeset owed. */
  predicate Reported(f: Flight, log: seq<Posted>) {
    && (f.announces && !f.bare ==> f.announced.Some? && ModeAt(log, f.base, f.announced.value, f.st.mode))
    && (f.notifies && !f.unheard ==> f.notified.Some? && DpmsAt(log, f.base, f.notified.value, f.st))
    && (f.announced.Some? && f.notified.Some? ==> f.announced.value < f.notified.value)
    && (f.owed && f.st.active ==> f.announces && f.notifies)
  }

  /** In every run, however its flushes were interrupted. */
  lemma FlushesReport(actions: seq<Action>, i: nat)
    requires i < |Run(START, actions).h.flushes|
    ensures Reported(Run(START, actions).h.flushes[i], Run(START, actions).h.log)
  {
    RunKeepsHonest(actions);
  }

  // ---- When an OFF is answered ----

  /** A flush has announced its mode and not yet cleared the flag. */
  predicate Clearing(s: System) {
    s.commit.Flushing? && s.commit.flight.stage.ClearFlag?
  }

  /** The flush of an owed modeset that began with the notifier at rest is never caught there. */
  lemma OwedFlushIsSafe(actions: seq<Action>)
    requires var s := Run(START, actions); Clearing(s) && s.notifier == Some(false)
    ensures var f := Run(START, actions).commit.flight; !(f.owed && f.quiet)
  {
    RunKeepsHonest(actions);
  }

  /** Since the state `t`, the next mark is not another OFF. */
  predicate Answered(t: System, u: System) {
    |u.h.vt| > |t.h.vt| ==> u.h.vt[|t.h.vt|] != VtOff
  }

  /** After an OFF in `t`: either something else came next, or a modeset is owed, or about to be. */
  predicate Guarded(t: System, u: System) {
    && t.h.vt <= u.h.vt
    && (if |u.h.vt| > |t.h.vt| then u.h.vt[|t.h.vt|] != VtOff
        else
          && Received(u.p) && !Clearing(u)
          && (u.notifier == Some(true) || (u.notifier.None? && u.p.needsModeset)))
  }

  /** The marks an action adds. */
  function MarksOf(s: System, a: Action): seq<VtMark>
    requires Enabled(s, a)
  {
    if a.DisconnectClient? then (if Disconnect(s.p, a.file).1.None? then [Session] else [])
    else if !ByCall(a) || CallOf(s, a).None? then []
    else if a.VtStep? then (if !s.notifier.value && Received(s.p) then [VtOff] else [])
    else MarksOfCall(s.p, CallOf(s, a).value)
  }

  function MarksOfCall(p: PainterState, call: Call): seq<VtMark> {
    match call
    case Post(e) => if e.ModeChanged? && Received(p) then [ModesetDone] else []
    case ConnectClient(file, space, edidLength) =>
      if Connect(p, file, space, edidLength).1.None? then [Session] else []
    case _ => []
  }

  lemma CallMarks(s: System, call: Call)
    requires |s.p.dirts| <= MAX_DIRTS
    ensures CallDone(s, call).h.vt == s.h.vt + MarksOfCall(s.p, call)
  {
  }

  lemma ByCallMarks(s: System, a: Action)
    requires Enabled(s, a) && ByCall(a)
    ensures Step(s, a).h.vt == s.h.vt + MarksOf(s, a)
  {
    if CallOf(s, a).Some? {
      CallMarks(s, CallOf(s, a).value);
    }
  }

  lemma MarksGrow(s: System, a: Action)
    requires Enabled(s, a)
    ensures Step(s, a).h.vt == s.h.vt + MarksOf(s, a)
  {
    if ByCall(a) {
      ByCallMarks(s, a);
    }
  }

  lemma FlushStepKeepsGuarded(t: System, u: System)
    requires Guarded(t, u) && Enabled(u, FlushStep)
    ensures Guarded(t, Step(u, FlushStep))
  {
    MarksGrow(u, FlushStep);
    if CallOf(u, FlushStep).Some? {
      FlagIsKept(u.p, u.console, CallOf(u, FlushStep).value);
    }
  }

  lemma ByCallKeepsGuarded(t: System, u: System, a: Action)
    requires Guarded(t, u) && Enabled(u, a) && ByCall(a) && !a.FlushStep?
    ensures Guarded(t, Step(u, a))
  {
    MarksGrow(u, a);
    if CallOf(u, a).Some? {
      FlagIsKept(u.p, u.console, CallOf(u, a).value);
    }
  }

  lemma StepKeepsGuarded(t: System, u: System, a: Action)
    requires Guarded(t, u) && Enabled(u, a)
    ensures Guarded(t, Step(u, a))
  {
    if a.FlushStep? {
      FlushStepKeepsGuarded(t, u);
    } else if ByCall(a) {
      ByCallKeepsGuarded(t, u, a);
    } else {
      MarksGrow(u, a);
    }
  }

  lemma {:induction false} RunKeepsGuarded(t: System, u: System, actions: seq<Action>)
    requires Guarded(t, u)
    ensures Guarded(t, Run(u, actions))
  {
    if actions != [] {
      var stem := actions[..|actions| - 1];
      var a := actions[|actions| - 1];
      RunKeepsGuarded(t, u, stem);
      if Enabled(Run(u, stem), a) {
        StepKeepsGuarded(t, Run(u, stem), a);
      }
    }
  }

  // ---- How an OFF gets lost ----

  /** The notifier sets the flag, the flush clears it, and at the next switch the notifier sends OFF
      again. */
  function Losing(console: int): seq<Action> {
    [VtStep] + [FlushStep] + ([SwitchConsole(console)] + [VtStart] + [VtStep])
  }

  /** Nothing owed, with the client connected and its console last seen on `console`. */
  predicate Unowed(t: System, vt: seq<VtMark>, console: int) {
    && t.alive && |t.p.dirts| <= MAX_DIRTS && Received(t.p) && !t.p.needsModeset
    && t.h.vt == vt && t.p.fgConsole == console
  }

  predicate Cleared(t: System, vt: seq<VtMark>, console: int) {
    Unowed(t, vt, console) && t.notifier.None?
  }

  lemma ForceStep(t: System)
    requires t.alive && |t.p.dirts| <= MAX_DIRTS && t.notifier == Some(true)
    ensures var u := Step(t, VtStep);
      u == t.(p := t.p.(needsModeset := true), notifier := None)
  {
  }

  lemma ClearStep(t: System)
    requires t.alive && |t.p.dirts| <= MAX_DIRTS && Received(t.p) && Clearing(t) && t.notifier.None?
    ensures Cleared(Step(t, FlushStep), t.h.vt, t.p.fgConsole)
  {
  }

  lemma ClearingRun(t: System)
    requires t.alive && |t.p.dirts| <= MAX_DIRTS && Received(t.p) && Clearing(t) && t.notifier == Some(true)
    ensures Cleared(Run(t, [VtStep] + [FlushStep]), t.h.vt, t.p.fgConsole)
  {
    ForceStep(t);
    ClearStep(Step(t, VtStep));
    RunOne(t, VtStep);
    RunMore(t, [VtStep], FlushStep);
  }

  lemma SecondOff(u: System, vt: seq<VtMark>, console: int)
    requires Cleared(u, vt, console)
    ensures Run(u, [SwitchConsole(console + 1)] + [VtStart] + [VtStep]).h.vt == vt + [VtOff]
  {
    var c := console + 1;
    RunOne(u, SwitchConsole(c));
    RunMore(u, [SwitchConsole(c)], VtStart);
    RunMore(u, [SwitchConsole(c)] + [VtStart], VtStep);
  }

  lemma LosingRun(t: System)
    requires t.alive && |t.p.dirts| <= MAX_DIRTS && Received(t.p) && Clearing(t) && t.notifier == Some(true)
    ensures Run(t, Losing(t.p.fgConsole + 1)).h.vt == t.h.vt + [VtOff]
  {
    hide Run, Step, Clearing;
    ClearingRun(t);
    SecondOff(Run(t, [VtStep] + [FlushStep]), t.h.vt, t.p.fgConsole);
    RunAppend(t, [VtStep] + [FlushStep], [SwitchConsole(t.p.fgConsole + 1)] + [VtStart] + [VtStep]);
  }

  /** The notifier, past its guard, sends OFF. Whatever happens afterwards, the next mark is no second
      OFF, that is, a mode is announced or the session ends first, exactly when no flush stands
      between announcing a mode and clearing the flag. An announced mode need not turn the display on. */
  lemma OffAnsweredIff(s: System)
    requires s.alive && |s.p.dirts| <= MAX_DIRTS && Received(s.p) && s.notifier == Some(false)
    ensures var t := Step(s, VtStep);
      (forall actions :: Answered(t, Run(t, actions))) <==> !Clearing(s)
  {
    var t := Step(s, VtStep);
    if Clearing(s) {
      LosingRun(t);
      assert !Answered(t, Run(t, Losing(t.p.fgConsole + 1)));
    } else {
      forall actions
        ensures Answered(t, Run(t, actions))
      {
        RunKeepsGuarded(t, t, actions);
      }
    }
  }

  /** A connected client, a scanout buffer, nothing owed and nothing under way. */
  predicate Resting(s: System) {
    && s.alive && |s.p.dirts| <= MAX_DIRTS && s.commit.Idle? && s.notifier.None?
    && Received(s.p) && s.p.scanout.Some? && !s.p.needsModeset
  }

  /** A flush announces a new mode, and the console is switched before it clears the flag. */
  function Announcing(crtc: nat, st: CrtcState): seq<Action> {
    [FlushStart(crtc, st)] + [FlushStep] + [FlushStep] + [FlushStep]
  }

  function Caught(crtc: nat, st: CrtcState, console: int): seq<Action> {
    Announcing(crtc, st) + ([SwitchConsole(console)] + [VtStart])
  }

  lemma PostingRun(s: System, crtc: nat, st: CrtcState)
    requires Resting(s) && st.active && st.modeChanged
    ensures var t := Run(s, [FlushStart(crtc, st)] + [FlushStep] + [FlushStep]);
      && t.commit.Flushing? && t.commit.flight.stage == PostMode(s.p.scanout.value.format)
      && t.commit.flight.crtc == crtc && t.commit.flight.st == st && t.commit.flight.notifies == st.activeChanged
      && t.p == s.p && t.alive && t.notifier.None? && t.h.vt == s.h.vt
  {
    RunOne(s, FlushStart(crtc, st));
    RunMore(s, [FlushStart(crtc, st)], FlushStep);
    RunMore(s, [FlushStart(crtc, st)] + [FlushStep], FlushStep);
  }

  lemma PostStep(t: System)
    requires t.commit.Flushing? && t.commit.flight.stage.PostMode? && Cleared(t, t.h.vt, t.p.fgConsole)
    ensures var u := Step(t, FlushStep);
      Clearing(u) && Cleared(u, t.h.vt + [ModesetDone], t.p.fgConsole)
  {
    MarksGrow(t, FlushStep);
  }

  lemma AnnouncingRun(s: System, crtc: nat, st: CrtcState)
    requires Resting(s) && st.active && st.modeChanged
    ensures var t := Run(s, Announcing(crtc, st));
      Clearing(t) && Cleared(t, s.h.vt + [ModesetDone], s.p.fgConsole)
  {
    var posting := [FlushStart(crtc, st)] + [FlushStep] + [FlushStep];
    PostingRun(s, crtc, st);
    PostStep(Run(s, posting));
    RunMore(s, posting, FlushStep);
  }

  lemma SwitchSteps(t: System, console: int)
    requires t.alive && |t.p.dirts| <= MAX_DIRTS && t.p.connected && !t.p.needsModeset && t.notifier.None?
    requires console != t.p.fgConsole
    ensures Run(t, [SwitchConsole(console)] + [VtStart]) == t.(console := console, notifier := Some(false))
  {
    RunOne(t, SwitchConsole(console));
    RunMore(t, [SwitchConsole(console)], VtStart);
  }

  /** A flush is caught before its clear by a notifier past its guard. */
  lemma CaughtRun(s: System, crtc: nat, st: CrtcState)
    requires Resting(s) && st.active && st.modeChanged
    ensures var t := Run(s, Caught(crtc, st, s.p.fgConsole + 1));
      Unowed(t, s.h.vt + [ModesetDone], s.p.fgConsole) && Clearing(t) && t.notifier == Some(false)
  {
    AnnouncingRun(s, crtc, st);
    SwitchSteps(Run(s, Announcing(crtc, st)), s.p.fgConsole + 1);
    RunAppend(s, Announcing(crtc, st), [SwitchConsole(s.p.fgConsole + 1)] + [VtStart]);
  }

  /** So from any resting state one change of mode and two console switches can leave the client with
      two OFFs and no announcement between them, and no modeset owed after the first. */
  lemma OffCanBeLost(s: System, crtc: nat, st: CrtcState)
    requires Resting(s) && st.active && st.modeChanged
    ensures exists actions :: Run(s, actions).h.vt == s.h.vt + [ModesetDone] + [VtOff] + [VtOff]
  {
    var c := s.p.fgConsole + 1;
    var first := Caught(crtc, st, c);
    CaughtRun(s, crtc, st);
    OffThenLosing(Run(s, first));
    RunAppend(s, first, [VtStep] + Losing(c));
    assert Run(s, first + ([VtStep] + Losing(c))).h.vt == s.h.vt + [ModesetDone] + [VtOff] + [VtOff];
  }

  lemma OffThenLosing(t: System)
    requires t.alive && |t.p.dirts| <= MAX_DIRTS && Received(t.p) && Clearing(t) && t.notifier == Some(false)
    ensures Run(t, [VtStep] + Losing(t.p.fgConsole + 1)).h.vt == t.h.vt + [VtOff] + [VtOff]
  {
    RunAppend(t, [VtStep], Losing(t.p.fgConsole + 1));
    RunOne(t, VtStep);
    MarksGrow(t, VtStep);
    LosingRun(Step(t, VtStep));
  }

  // ---- A flush that is not interrupted ----

  function NotifyIf(p: PainterState, console: int, st: CrtcState, notifies: bool): PainterState {
    if notifies then DpmsNotify(p, console, DpmsOf(st)) else p
  }

  /** The painter when the flush comes to hand over its vblank. */
  function Announced(f: Flight, p: PainterState, console: int): PainterState {
    match f.stage
    case DecideDpms =>
      NotifyIf(if f.announces then ModeChangedNotify(p, f.st.mode) else p, console, f.st, Notifies(f, p))
    case ReadFormat => NotifyIf(ModeChangedNotify(p, f.st.mode), console, f.st, f.notifies)
    case PostMode(format) =>
      NotifyIf(SendEvent(p, ModeEvent(f.st.mode, format)).(needsModeset := false), console, f.st, f.notifies)
    case ClearFlag => NotifyIf(p.(needsModeset := false), console, f.st, f.notifies)
    case TakeConsole => NotifyIf(p, console, f.st, true)
    case PostDpms => SendEvent(p, Dpms(DpmsOf(f.st)))
    case _ => p
  }

  /** What is left of a flush makes of the painter. */
  function FlushRest(f: Flight, p: PainterState, console: int): PainterState {
    if f.stage.SendReady? then SendUpdateReadyIfNeeded(p)
    else SendUpdateReadyIfNeeded(SetVblank(Announced(f, p, console), Some(f.crtc), f.st.event))
  }

  function Left(stage: Stage): nat {
    match stage
    case DecideDpms => 8
    case ReadFormat => 7
    case PostMode(_) => 6
    case ClearFlag => 5
    case TakeConsole => 4
    case PostDpms => 3
    case HandVblank => 2
    case SendReady => 1
  }

  function Steps(k: nat): seq<Action> {
    if k == 0 then [] else [FlushStep] + Steps(k - 1)
  }

  /** `t` is `s` with the painter at `p`, and with no commit under way. */
  predicate Landed(s: System, t: System, p: PainterState) {
    t.p == p && t.commit.Idle? && t.alive == s.alive && t.console == s.console && t.ops == s.ops
    && t.notifier == s.notifier
  }

  predicate AnnouncedKept(f: Flight, p: PainterState, console: int, n: nat)
    requires |p.dirts| <= MAX_DIRTS
  {
    var q := if StageCall(f).Some? then Apply(p, console, StageCall(f).value) else p;
    Announced(Advanced(f, p, n), q, console) == Announced(f, p, console) && q.dirts == p.dirts
  }

  lemma DecideKeeps(f: Flight, p: PainterState, console: int, n: nat)
    requires |p.dirts| <= MAX_DIRTS && f.stage.DecideDpms?
    ensures AnnouncedKept(f, p, console, n)
  {
  }

  lemma ReadKeeps(f: Flight, p: PainterState, console: int, n: nat)
    requires |p.dirts| <= MAX_DIRTS && f.stage.ReadFormat?
    ensures AnnouncedKept(f, p, console, n)
  {
  }

  lemma PostModeKeeps(f: Flight, p: PainterState, console: int, n: nat)
    requires |p.dirts| <= MAX_DIRTS && f.stage.PostMode?
    ensures AnnouncedKept(f, p, console, n)
  {
  }

  lemma ClearKeeps(f: Flight, p: PainterState, console: int, n: nat)
    requires |p.dirts| <= MAX_DIRTS && f.stage.ClearFlag?
    ensures AnnouncedKept(f, p, console, n)
  {
  }

  lemma ConsoleKeeps(f: Flight, p: PainterState, console: int, n: nat)
    requires |p.dirts| <= MAX_DIRTS && f.stage.TakeConsole?
    ensures AnnouncedKept(f, p, console, n)
  {
  }

  lemma PostDpmsKeeps(f: Flight, p: PainterState, console: int, n: nat)
    requires |p.dirts| <= MAX_DIRTS && f.stage.PostDpms?
    ensures AnnouncedKept(f, p, console, n)
  {
  }

  lemma StageKeepsAnnounced(f: Flight, p: PainterState, console: int, n: nat)
    requires |p.dirts| <= MAX_DIRTS && !f.stage.SendReady? && !f.stage.HandVblank?
    ensures AnnouncedKept(f, p, console, n)
  {
    match f.stage
    case DecideDpms => DecideKeeps(f, p, console, n);
    case ReadFormat => ReadKeeps(f, p, console, n);
    case PostMode(_) => PostModeKeeps(f, p, console, n);
    case ClearFlag => ClearKeeps(f, p, console, n);
    case TakeConsole => ConsoleKeeps(f, p, console, n);
    case _ => PostDpmsKeeps(f, p, console, n);
  }

  lemma StageKeepsRest(f: Flight, p: PainterState, console: int, n: nat)
    requires |p.dirts| <= MAX_DIRTS && !f.stage.SendReady?
    ensures var q := if StageCall(f).Some? then Apply(p, console, StageCall(f).value) else p;
      && FlushRest(Advanced(f, p, n), q, console) == FlushRest(f, p, console)
      && q.dirts == p.dirts && Left(NextStage(f, p)) < Left(f.stage)
  {
    if !f.stage.HandVblank? {
      StageKeepsAnnounced(f, p, console, n);
    }
  }

  lemma {:induction false} IdleSteps(s: System, k: nat)
    requires s.commit.Idle?
    ensures Run(s, Steps(k)) == s
  {
    if k > 0 {
      IdleSteps(s, k - 1);
      RunAppend(s, [FlushStep], Steps(k - 1));
      RunOne(s, FlushStep);
    }
  }

  lemma StepsUnroll(s: System, k: nat)
    requires k > 0 && Enabled(s, FlushStep)
    ensures Run(s, Steps(k)) == Run(Step(s, FlushStep), Steps(k - 1))
  {
    RunAppend(s, [FlushStep], Steps(k - 1));
    RunOne(s, FlushStep);
  }

  /** What a step of a flush makes of the system, leaving its records aside. */
  lemma FlushStepIs(s: System)
    requires Enabled(s, FlushStep)
    ensures var t, f := Step(s, FlushStep), s.commit.flight;
      && t.p == (if StageCall(f).Some? then Apply(s.p, s.console, StageCall(f).value) else s.p)
      && t.commit == (if f.stage.SendReady? then Idle else Flushing(Advanced(f, s.p, |s.h.log|)))
      && t.alive == s.alive && t.console == s.console && t.ops == s.ops && t.notifier == s.notifier
  {
    StepByCall(s, FlushStep);
  }

  lemma LastStepLands(s: System)
    requires Enabled(s, FlushStep) && s.commit.flight.stage.SendReady?
    ensures Landed(s, Step(s, FlushStep), FlushRest(s.commit.flight, s.p, s.console))
  {
    FlushStepIs(s);
  }

  lemma LandedIsIdle(s: System)
    requires Enabled(s, FlushStep) && s.commit.flight.stage.SendReady?
    ensures Step(s, FlushStep).commit.Idle?
  {
    FlushStepIs(s);
  }

  lemma LastStep(s: System, k: nat)
    requires k > 0 && Enabled(s, FlushStep) && s.commit.flight.stage.SendReady?
    ensures Landed(s, Run(s, Steps(k)), FlushRest(s.commit.flight, s.p, s.console))
  {
    LastStepLands(s);
    LandedIsIdle(s);
    hide *;
    StepsUnroll(s, k);
    IdleSteps(Step(s, FlushStep), k - 1);
  }

  lemma OneStep(s: System)
    requires Enabled(s, FlushStep) && !s.commit.flight.stage.SendReady?
    ensures var t, f := Step(s, FlushStep), s.commit.flight;
      && Enabled(t, FlushStep) && Left(t.commit.flight.stage) < Left(f.stage)
      && FlushRest(t.commit.flight, t.p, t.console) == FlushRest(f, s.p, s.console)
      && t.console == s.console && t.ops == s.ops && t.notifier == s.notifier && t.alive == s.alive
  {
    FlushStepIs(s);
    StageKeepsRest(s.commit.flight, s.p, s.console, |s.h.log|);
  }

  lemma {:induction false} FinishRun(s: System, k: nat)
    requires Enabled(s, FlushStep) && k >= Left(s.commit.flight.stage)
    ensures Landed(s, Run(s, Steps(k)), FlushRest(s.commit.flight, s.p, s.console))
    decreases k
  {
    hide FlushRest, Run, Steps, Step;
    if s.commit.flight.stage.SendReady? {
      LastStep(s, k);
    } else {
      OneStep(s);
      StepsUnroll(s, k);
      FinishRun(Step(s, FlushStep), k - 1);
    }
  }

  function FlushSteps(crtc: nat, st: CrtcState): seq<Action> {
    [FlushStart(crtc, st)] + Steps(8)
  }

  /** The steps of a flush, uninterrupted, do what `CrtcFlush` says. */
  lemma FlushIsRun(s: System, crtc: nat, st: CrtcState)
    requires s.alive && |s.p.dirts| <= MAX_DIRTS && s.commit.Idle?
    ensures Landed(s, Run(s, FlushSteps(crtc, st)), CrtcFlush(s.p, s.console, crtc, st))
  {
    RunAppend(s, [FlushStart(crtc, st)], Steps(8));
    RunOne(s, FlushStart(crtc, st));
    FinishRun(Step(s, FlushStart(crtc, st)), 8);
  }

  /** The steps of the console notifier, uninterrupted, do what `VtNotify` says. */
  lemma NotifierIsRun(s: System)
    requires s.alive && |s.p.dirts| <= MAX_DIRTS && s.notifier.None?
    ensures var t := Run(s, [VtStart] + [VtStep] + [VtStep]);
      t.p == VtNotify(s.p, s.console) && t.notifier.None? && t.commit == s.commit && t.ops == s.ops
  {
    hide Run, Send, Recorded;
    RunOne(s, VtStart);
    RunMore(s, [VtStart], VtStep);
    RunMore(s, [VtStart] + [VtStep], VtStep);
  }

  // ---- Recovering from a console switch ----

  lemma ModeAccepts(p: PainterState, mode: DisplayMode)
    requires Received(p) && p.scanout.Some?
    ensures var q := ModeChangedNotify(p, mode);
      && q == p.(queue := q.queue, needsModeset := false)
      && q.queue.accepted == p.queue.accepted + [ModeEvent(mode, p.scanout.value.format)]
  {
  }

  lemma DpmsAccepts(p: PainterState, console: int, mode: int)
    requires Received(p)
    ensures var q := DpmsNotify(p, console, mode);
      && q == p.(queue := q.queue, fgConsole := if mode == DPMS_ON then console else p.fgConsole)
      && q.queue.accepted == p.queue.accepted + [Dpms(mode)]
  {
  }

  lemma HandingAccepts(p: PainterState, crtc: nat, vblank: Option<nat>)
    requires Received(p)
    ensures var q := SendUpdateReadyIfNeeded(SetVblank(p, Some(crtc), vblank));
      && q.queue.accepted == p.queue.accepted + (if ReadyDue(p) then [UpdateReady] else [])
      && q.fgConsole == p.fgConsole && q.needsModeset == p.needsModeset
  {
  }

  /** What an active flush with a scanout buffer tells the client: the mode exactly when it changed or a
      modeset is owed, DPMS ON exactly when it became active or a modeset is owed. */
  lemma ActiveFlushAccepts(p: PainterState, console: int, crtc: nat, st: CrtcState)
    requires Received(p) && p.scanout.Some? && st.active
    ensures CrtcFlush(p, console, crtc, st).queue.accepted == p.queue.accepted
      + (if st.modeChanged || p.needsModeset then [ModeEvent(st.mode, p.scanout.value.format)] else [])
      + (if st.activeChanged || p.needsModeset then [Dpms(DPMS_ON)] else [])
      + (if ReadyDue(p) then [UpdateReady] else [])
    ensures p.needsModeset ==>
      var q := CrtcFlush(p, console, crtc, st); q.fgConsole == console && !q.needsModeset
  {
    var p1 := if st.modeChanged || p.needsModeset then ModeChangedNotify(p, st.mode) else p;
    var p2 := if st.activeChanged || p.needsModeset then DpmsNotify(p1, console, DPMS_ON) else p1;
    ModeAccepts(p, st.mode);
    DpmsAccepts(p1, console, DPMS_ON);
    HandingAccepts(p2, crtc, st.event);
  }

  /** What an inactive flush tells: DPMS OFF exactly when it became inactive or a modeset is owed, which then
      stays owed. */
  lemma InactiveFlushAccepts(p: PainterState, console: int, crtc: nat, st: CrtcState)
    requires Received(p) && !st.active
    ensures var q := CrtcFlush(p, console, crtc, st);
      && q.queue.accepted == p.queue.accepted
           + (if st.activeChanged || p.needsModeset then [Dpms(3)] else [])
           + (if ReadyDue(p) then [UpdateReady] else [])
      && q.needsModeset == p.needsModeset && q.fgConsole == p.fgConsole
  {
    var p1 := if st.activeChanged || p.needsModeset then DpmsNotify(p, console, DPMS_OFF) else p;
    DpmsAccepts(p, console, DPMS_OFF);
    HandingAccepts(p1, crtc, st.event);
  }

  /** While a full modeset is owed it also leaves the console notifier with nothing to report. */
  lemma FlushRecovers(p: PainterState, console: int, crtc: nat, st: CrtcState)
    requires Received(p) && p.scanout.Some? && p.needsModeset && st.active
    ensures var q := CrtcFlush(p, console, crtc, st);
      && q.queue.accepted == p.queue.accepted
           + [ModeEvent(st.mode, p.scanout.value.format)] + [Dpms(DPMS_ON)]
           + (if ReadyDue(p) then [UpdateReady] else [])
      && q.fgConsole == console && !q.needsModeset && !VtSwitched(q, console)
  {
    ActiveFlushAccepts(p, console, crtc, st);
  }

  /** With nothing owed, a flush that changes nothing tells the client nothing but that there is
      something to grab. */
  lemma UnowedFlushIsSilent(p: PainterState, console: int, crtc: nat, st: CrtcState)
    requires !p.needsModeset && !st.modeChanged && !st.activeChanged
    ensures CrtcFlush(p, console, crtc, st).queue.accepted
              == p.queue.accepted + if ReadyDue(p) && Received(p) then [UpdateReady] else []
  {
  }

  function VtOffs(marks: seq<VtMark>): nat {
    if marks == [] then 0
    else VtOffs(marks[..|marks| - 1]) + if marks[|marks| - 1] == VtOff then 1 else 0
  }

  lemma {:induction false} VtOffsAppend(marks: seq<VtMark>, more: seq<VtMark>)
    ensures VtOffs(marks + more) == VtOffs(marks) + VtOffs(more)
  {
    if more == [] {
      assert marks + more == marks;
    } else {
      var n := |more| - 1;
      assert (marks + more)[..|marks| + n] == marks + more[..n];
      VtOffsAppend(marks, more[..n]);
    }
  }

  predicate OnForeground(s: System) {
    s.p.fgConsole == s.console && s.notifier != Some(false)
  }

  lemma CallKeepsForeground(p: PainterState, console: int, call: Call)
    requires |p.dirts| <= MAX_DIRTS && p.fgConsole == console
    ensures Apply(p, console, call).fgConsole == console
  {
  }

  lemma NotifierRests(s: System, a: Action)
    requires Enabled(s, a) && ByCall(a) && OnForeground(s)
    ensures Step(s, a).notifier != Some(false)
  {
  }

  lemma StepKeepsForeground(s: System, a: Action)
    requires Enabled(s, a) && !a.SwitchConsole? && OnForeground(s)
    ensures OnForeground(Step(s, a))
  {
    if ByCall(a) {
      StepByCall(s, a);
      NotifierRests(s, a);
      if CallOf(s, a).Some? {
        CallKeepsForeground(s.p, s.console, CallOf(s, a).value);
      }
    }
  }

  lemma NoOffMarked(s: System, a: Action)
    requires Enabled(s, a) && OnForeground(s)
    ensures VtOffs(Step(s, a).h.vt) == VtOffs(s.h.vt)
  {
    MarksGrow(s, a);
    VtOffsAppend(s.h.vt, MarksOf(s, a));
    assert [ModesetDone][..0] == [] && [Session][..0] == [];
  }

  /** With the painter on the foreground console and the notifier not about to send, there is no OFF
      through any run, forced and finished modesets included, until the console is switched again. */
  lemma {:induction false} SilentUntilSwitch(s: System, actions: seq<Action>)
    requires OnForeground(s)
    requires forall i :: 0 <= i < |actions| ==> !actions[i].SwitchConsole?
    ensures var t := Run(s, actions); OnForeground(t) && VtOffs(t.h.vt) == VtOffs(s.h.vt)
  {
    if actions != [] {
      var stem := actions[..|actions| - 1];
      var a := actions[|actions| - 1];
      assert a == actions[|actions| - 1] && !a.SwitchConsole?;
      SilentUntilSwitch(s, stem);
      if Enabled(Run(s, stem), a) {
        StepKeepsForeground(Run(s, stem), a);
        NoOffMarked(Run(s, stem), a);
      }
    }
  }

  /** The state after an OFF, through any run that has not answered it. */
  ghost predicate Unanswered(s: System, later: seq<Action>, u: System)
    requires s.alive && |s.p.dirts| <= MAX_DIRTS && s.notifier == Some(false)
  {
    u == Run(Step(s, VtStep), later) && u.h.vt == Step(s, VtStep).h.vt
  }

  /** A display turned off with no flush caught before its clear. As long as no mode was announced since,
      through any run, the notifier has either still to force the modeset, or one is owed. An active
      flush that starts then announces its mode exactly when that changed or the modeset is already
      owed; with a scanout buffer, and uninterrupted, DPMS ON goes with it likewise, and an owed one
      leaves the notifier with nothing to report. */
  lemma UnansweredIsOwed(s: System, later: seq<Action>, u: System, crtc: nat, st: CrtcState)
    requires s.alive && |s.p.dirts| <= MAX_DIRTS && Received(s.p) && s.notifier == Some(false) && !Clearing(s)
    requires Unanswered(s, later, u) && st.active
    ensures u.notifier == Some(true) || (u.notifier.None? && u.p.needsModeset && !VtSwitched(u.p, u.console))
    ensures Enabled(u, FlushStart(crtc, st)) ==>
      var f := Step(u, FlushStart(crtc, st)).commit.flight;
      && (f.announces <==> st.modeChanged || u.p.needsModeset)
      && (u.notifier.None? ==> f.owed && f.quiet && f.announces)
    ensures u.p.scanout.Some? ==>
      var q := CrtcFlush(u.p, u.console, crtc, st);
      && q.queue.accepted == u.p.queue.accepted
           + (if st.modeChanged || u.p.needsModeset then [ModeEvent(st.mode, u.p.scanout.value.format)] else [])
           + (if st.activeChanged || u.p.needsModeset then [Dpms(DPMS_ON)] else [])
           + (if ReadyDue(u.p) then [UpdateReady] else [])
      && (u.p.needsModeset ==> !q.needsModeset && !VtSwitched(q, u.console))
  {
    RunKeepsGuarded(Step(s, VtStep), Step(s, VtStep), later);
    if u.p.scanout.Some? {
      ActiveFlushAccepts(u.p, u.console, crtc, st);
      if u.p.needsModeset {
        FlushRecovers(u.p, u.console, crtc, st);
      }
    }
  }

  /** The notifier is about to send OFF, with nothing owed yet and no commit under way. */
  predicate InWindow(s: System) {
    && s.alive && |s.p.dirts| <= MAX_DIRTS && Received(s.p) && s.p.scanout.Some?
    && s.notifier == Some(false) && !s.p.needsModeset && s.commit.Idle?
  }

  /** A flush that starts between the OFF and the forced modeset, and changes nothing, announces nothing:
      the first active flush after an OFF need not answer it. */
  lemma FlushInWindowIsSilent(s: System, crtc: nat, st: CrtcState)
    requires InWindow(s) && st.active && !st.modeChanged && !st.activeChanged
    ensures var t := Step(s, VtStep);
      && t.h.vt == s.h.vt + [VtOff] && Enabled(t, FlushStart(crtc, st))
      && !Step(t, FlushStart(crtc, st)).commit.flight.announces
      && CrtcFlush(t.p, t.console, crtc, st).queue.accepted
           == t.p.queue.accepted + if ReadyDue(t.p) then [UpdateReady] else []
  {
    MarksGrow(s, VtStep);
    UnowedFlushIsSilent(Step(s, VtStep).p, s.console, crtc, st);
  }

  // ---- A resting state is reachable ----

  const SCREEN: Framebuffer := Framebuffer(1, 640, 480, 0)
  const ACTIVE := CrtcState(true, false, true, DisplayMode(640, 480, 60), None)

  function Shown(): seq<Action> {
    [Locked(ConnectClient(1, 0, MIN_EDID_SIZE))] + [SwapStart(Some(SCREEN))] + [SwapExchange(0)]
  }

  lemma ShownRun()
    ensures var s := Run(START, Shown());
      && s.alive && s.p.dirts == [] && s.commit.Idle? && s.notifier.None?
      && Received(s.p) && s.p.scanout.Some? && s.p.needsModeset
  {
    var connect := [Locked(ConnectClient(1, 0, MIN_EDID_SIZE))];
    RunOne(START, Locked(ConnectClient(1, 0, MIN_EDID_SIZE)));
    RunMore(START, connect, SwapStart(Some(SCREEN)));
    RunMore(START, connect + [SwapStart(Some(SCREEN))], SwapExchange(0));
  }

  lemma RestingIsReachable()
    ensures exists actions :: Resting(Run(START, actions))
  {
    var s := Run(START, Shown());
    ShownRun();
    FlushIsRun(s, 0, ACTIVE);
    RunAppend(START, Shown(), FlushSteps(0, ACTIVE));
    FlushedRests(s);
    assert Resting(Run(START, Shown() + FlushSteps(0, ACTIVE)));
  }

  lemma WindowIsReachable()
    ensures exists actions :: InWindow(Run(START, actions))
  {
    RestingIsReachable();
    var rest :| Resting(Run(START, rest));
    var s := Run(START, rest);
    var switching := [SwitchConsole(s.p.fgConsole + 1)] + [VtStart];
    SwitchSteps(s, s.p.fgConsole + 1);
    RunAppend(START, rest, switching);
    assert InWindow(Run(START, rest + switching));
  }

  lemma FlushedRests(s: System)
    requires Received(s.p) && s.p.scanout.Some? && s.p.needsModeset && |s.p.dirts| <= MAX_DIRTS
    ensures var q := CrtcFlush(s.p, s.console, 0, ACTIVE);
      Received(q) && q.scanout == s.p.scanout && !q.needsModeset && q.dirts == s.p.dirts
  {
    FlushRecovers(s.p, s.console, 0, ACTIVE);
  }

  /** A concrete run ends in two OFFs with no announcement between them. */
  lemma LostOffIsReachable()
    ensures exists actions ::
      var vt := Run(START, actions).h.vt; |vt| >= 2 && vt[|vt| - 1] == VtOff && vt[|vt| - 2] == VtOff
  {
    RestingIsReachable();
    var rest :| Resting(Run(START, rest));
    var st := ACTIVE.(modeChanged := true);
    OffCanBeLost(Run(START, rest), 0, st);
    var more :| Run(Run(START, rest), more).h.vt == Run(START, rest).h.vt + [ModesetDone] + [VtOff] + [VtOff];
    RunAppend(START, rest, more);
    assert Run(START, rest + more).h.vt == Run(START, rest).h.vt + [ModesetDone] + [VtOff] + [VtOff];
  }
}
