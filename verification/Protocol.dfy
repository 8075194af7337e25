/** The whole protocol as one state machine: every locked section of the painter, and every
    step of the operations that work outside its lock, in any interleaving. */
module Protocol {
  import opened Wrappers
  import opened Rects
  import opened DirtyRects
  import opened Events
  import opened PainterModel

  // ---- Operations in flight outside the painter's lock ----

  /** Where such an operation stands. `Swapping` took a reference on its new framebuffer and has
      not exchanged it yet; `Grabbing` is copying; `Releasing` has one reference left to put. */
  datatype Op =
    | Swapping(newFb: Option<Framebuffer>)
    | Grabbing(fb: Framebuffer, rects: seq<Rect>, crtc: Option<nat>, vblank: Option<nat>)
    | Releasing(oldFb: Option<Framebuffer>)

  function Ref(fb: Option<Framebuffer>, x: Framebuffer): nat {
    if fb == Some(x) then 1 else 0
  }

  /** How many references to `x` an operation holds. */
  function RefsTo(x: Framebuffer): Op -> nat {
    (op: Op) =>
      match op
      case Swapping(fb) => Ref(fb, x)
      case Grabbing(fb, _, _, _) => Ref(Some(fb), x)
      case Releasing(fb) => Ref(fb, x)
  }

  function Count(vs: seq<Vblank>, v: Vblank): nat {
    if vs == [] then 0 else Count(vs[..|vs| - 1], v) + if vs[|vs| - 1] == v then 1 else 0
  }

  lemma {:induction false} CountAppend(vs: seq<Vblank>, ws: seq<Vblank>, v: Vblank)
    ensures Count(vs + ws, v) == Count(vs, v) + Count(ws, v)
  {
    if ws == [] {
      assert vs + ws == vs;
    } else {
      var n := |ws| - 1;
      assert (vs + ws)[..|vs| + n] == vs + ws[..n];
      CountAppend(vs, ws[..n], v);
    }
  }

  /** How often an operation holds the vblank event `v`. */
  function HoldsOf(v: Vblank): Op -> nat {
    (op: Op) =>
      match op
      case Grabbing(_, _, crtc, vblank) => Count(Sent(crtc, vblank), v)
      case _ => 0
  }

  function Sum(f: Op -> nat, ops: seq<Op>): nat {
    if ops == [] then 0 else Sum(f, ops[..|ops| - 1]) + f(ops[|ops| - 1])
  }

  function Without<T>(s: seq<T>, i: nat): seq<T>
    requires i < |s|
  {
    s[..i] + s[i + 1..]
  }

  lemma SumAppend(f: Op -> nat, ops: seq<Op>, op: Op)
    ensures Sum(f, ops + [op]) == Sum(f, ops) + f(op)
  {
  }

  lemma {:induction false} SumUpdate(f: Op -> nat, ops: seq<Op>, i: nat, op: Op)
    requires i < |ops|
    ensures Sum(f, ops[i := op]) == Sum(f, ops) - f(ops[i]) + f(op)
  {
    var n := |ops| - 1;
    if i < n {
      SumUpdate(f, ops[..n], i, op);
      assert ops[i := op][..n] == ops[..n][i := op];
    } else {
      assert ops[i := op][..n] == ops[..n];
    }
  }

  lemma {:induction false} SumWithout(f: Op -> nat, ops: seq<Op>, i: nat)
    requires i < |ops|
    ensures Sum(f, Without(ops, i)) == Sum(f, ops) - f(ops[i])
  {
    var n := |ops| - 1;
    if i < n {
      SumWithout(f, ops[..n], i);
      var rest := Without(ops, i);
      assert rest[n - 1] == ops[n] && rest[..n - 1] == Without(ops[..n], i);
    } else {
      assert Without(ops, i) == ops[..n];
    }
  }

  // ---- Threads that take no lock between their steps ----

  /** Where a crtc flush stands. Announcing a mode reads the format, posts the event, and clears the
      flag in three steps; so does everything else it does come in steps. */
  datatype Stage =
    | DecideDpms
    | ReadFormat
    | PostMode(format: nat)
    | ClearFlag
    | TakeConsole
    | PostDpms
    | HandVblank
    | SendReady

  /** A flush, with what it decided and, for stating properties only, how it began and where in the
      log of posts its own are. */
  datatype Flight = Flight(
    stage: Stage, crtc: nat, st: CrtcState, announces: bool, notifies: bool,
    owed: bool,                // a full modeset was owed when it began
    quiet: bool,               // and the console notifier was not at work
    bare: bool,                // it found no scanout buffer to announce
    unheard: bool,             // it found no client to notify
    base: nat, announced: Option<nat>, notified: Option<nat>)

  /** The thread that commits; the commits of the one crtc do not overlap. */
  datatype Commit = Idle | Posting(mode: int) | Flushing(flight: Flight)

  // ---- The machine ----

  /** The marks between which console switches are judged; a session ends with each of its marks. */
  datatype VtMark = VtOff | ModesetDone | Session

  datatype Posted = Posted(event: Event, received: bool)

  /** What has happened so far, for stating properties only. */
  datatype History = History(
    requests: nat, ignored: nat, answered: nat, readied: nat, cancelled: nat,
    markedSinceFlush: bool,
    vt: seq<VtMark>,
    log: seq<Posted>,          // events posted, one by one
    flushes: seq<Flight>)      // flushes finished

  datatype System = System(
    p: PainterState,
    alive: bool,                      // the painter has not been cleaned up
    console: int,                     // the foreground console
    ops: seq<Op>,
    commit: Commit,
    notifier: Option<bool>,           // the console notifier past its guard: has it sent OFF?
    refs: multiset<Framebuffer>,      // references taken by the painter's code and not put
    submitted: seq<Vblank>,           // vblank events given to the painter
    h: History)

  /** What runs in one step: the locked sections, and single reads and writes without the lock. */
  datatype Call =
    | Mark(rect: Rect)
    | SubmitVblank(crtc: Option<nat>, vblank: Option<nat>)
    | Request
    | FlushReady
    | ForceModeset
    | ClearModeset
    | RecordConsole(dpms: int)
    | Post(event: Event)
    | RunWork
    | ClientReads(bytes: nat)
    | ConnectClient(file: nat, space: nat, edidLength: int)

  datatype Action =
    | Locked(call: Call)
    | DpmsStart(dpms: int)
    | DpmsPost
    | FlushStart(crtc: nat, st: CrtcState)
    | FlushStep
    | VtStart
    | VtStep
    | SwapStart(newFb: Option<Framebuffer>)
    | SwapExchange(i: nat)
    | Release(i: nat)
    | GrabStart(numRects: int)
    | GrabComplete(i: nat)
    | DisconnectClient(file: nat)
    | CleanUp
    | SwitchConsole(console: int)

  const START := System(FRESH, true, 0, [], Idle, None, multiset{}, [],
                        History(0, 0, 0, 0, 0, false, [], [], []))

  function Apply(p: PainterState, console: int, call: Call): PainterState
    requires |p.dirts| <= MAX_DIRTS
  {
    match call
    case Mark(rect) => MarkDirty(p, rect)
    case SubmitVblank(crtc, vblank) => SetVblank(p, crtc, vblank)
    case Request => RequestUpdate(p).0
    case FlushReady => SendUpdateReadyIfNeeded(p)
    case ForceModeset => p.(needsModeset := true)
    case ClearModeset => p.(needsModeset := false)
    case RecordConsole(mode) => if p.connected && mode == DPMS_ON then p.(fgConsole := console) else p
    case Post(e) => SendEvent(p, e)
    case RunWork => if p.queue.scheduled then p.(queue := Flush(p.queue)) else p
    case ClientReads(bytes) => p.(queue := p.queue.(space := p.queue.space + bytes))
    case ConnectClient(file, space, edidLength) => Connect(p, file, space, edidLength).0
  }

  predicate ReadyDue(p: PainterState) {
    p.updateRequested && |p.dirts| > 0
  }

  predicate Received(p: PainterState) {
    p.filp.Some? && p.connected
  }

  function Recorded(h: History, p: PainterState, call: Call): History {
    match call
    case Mark(_) => h.(markedSinceFlush := h.markedSinceFlush || p.scanout.Some?)
    case Request =>
      h.(requests := h.requests + 1,
         ignored := h.ignored + if p.updateRequested then 1 else 0,
         answered := h.answered + if RequestUpdate(p).1 == 1 then 1 else 0)
    case FlushReady =>
      h.(markedSinceFlush := false, readied := h.readied + if ReadyDue(p) then 1 else 0)
    case Post(e) =>
      h.(log := h.log + [Posted(e, Received(p))],
         vt := h.vt + if e.ModeChanged? && Received(p) then [ModesetDone] else [])
    case ConnectClient(file, space, edidLength) =>
      if Connect(p, file, space, edidLength).1.None? then h.(vt := h.vt + [Session]) else h
    case _ => h
  }

  function AfterMode(notifies: bool): Stage {
    if notifies then TakeConsole else HandVblank
  }

  function Notifies(f: Flight, p: PainterState): bool {
    if f.stage.DecideDpms? then f.st.activeChanged || p.needsModeset else f.notifies
  }

  function NextStage(f: Flight, p: PainterState): Stage {
    match f.stage
    case DecideDpms => if f.announces then ReadFormat else AfterMode(Notifies(f, p))
    case ReadFormat => if p.scanout.None? then AfterMode(f.notifies) else PostMode(p.scanout.value.format)
    case PostMode(_) => ClearFlag
    case ClearFlag => AfterMode(f.notifies)
    case TakeConsole => if p.connected then PostDpms else HandVblank
    case PostDpms => HandVblank
    case HandVblank => SendReady
    case SendReady => SendReady
  }

  /** The flush after its next step, taken with the painter at `p` and `n` posts in the log. */
  function Advanced(f: Flight, p: PainterState, n: nat): Flight {
    f.(stage := NextStage(f, p),
       notifies := Notifies(f, p),
       bare := f.bare || (f.stage.ReadFormat? && p.scanout.None?),
       unheard := f.unheard || (f.stage.TakeConsole? && !p.connected),
       announced := if f.stage.PostMode? then Some(n) else f.announced,
       notified := if f.stage.PostDpms? then Some(n) else f.notified)
  }

  function DpmsOf(st: CrtcState): int {
    if st.active then DPMS_ON else DPMS_OFF
  }

  function StageCall(f: Flight): Option<Call> {
    match f.stage
    case PostMode(format) => Some(Post(ModeEvent(f.st.mode, format)))
    case ClearFlag => Some(ClearModeset)
    case TakeConsole => Some(RecordConsole(DpmsOf(f.st)))
    case PostDpms => Some(Post(Dpms(DpmsOf(f.st))))
    case HandVblank => Some(SubmitVblank(Some(f.crtc), f.st.event))
    case SendReady => Some(FlushReady)
    case _ => None
  }

  /** The actions that run a call, or only look and decide. */
  predicate ByCall(a: Action) {
    a.Locked? || a.DpmsStart? || a.DpmsPost? || a.FlushStart? || a.FlushStep? || a.VtStart? || a.VtStep?
  }

  /** A modeset is announced and the flag cleared by a flush only. */
  predicate FlushOnly(call: Call) {
    call.ClearModeset? || (call.Post? && call.event.ModeChanged?)
  }

  /** Only what is already in flight goes on after the painter was cleaned up. */
  predicate Enabled(s: System, a: Action) {
    match a
    case Release(i) => i < |s.ops| && s.ops[i].Releasing?
    case GrabComplete(i) => i < |s.ops| && s.ops[i].Grabbing?
    case SwapExchange(i) => s.alive && i < |s.ops| && s.ops[i].Swapping?
    case SwitchConsole(_) => true
    case _ =>
      && s.alive
      && (ByCall(a) ==> |s.p.dirts| <= MAX_DIRTS)
      && (a.Locked? ==> !FlushOnly(a.call))
      && (a.DpmsStart? || a.FlushStart? ==> s.commit.Idle?)
      && (a.DpmsPost? ==> s.commit.Posting?)
      && (a.FlushStep? ==> s.commit.Flushing?)
      && (a.VtStart? ==> s.notifier.None?)
      && (a.VtStep? ==> s.notifier.Some?)
  }

  function CallOf(s: System, a: Action): Option<Call>
    requires Enabled(s, a) && ByCall(a)
  {
    match a
    case Locked(call) => Some(call)
    case DpmsStart(mode) => Some(RecordConsole(mode))
    case DpmsPost => Some(Post(Dpms(s.commit.mode)))
    case FlushStep => StageCall(s.commit.flight)
    case VtStep => Some(if s.notifier.value then ForceModeset else Post(Dpms(DPMS_OFF)))
    case _ => None
  }

  function CommitAfter(s: System, a: Action): Commit
    requires Enabled(s, a)
  {
    match a
    case DpmsStart(mode) => if s.p.connected then Posting(mode) else Idle
    case DpmsPost => Idle
    case FlushStart(crtc, st) =>
      Flushing(Flight(DecideDpms, crtc, st, st.active && (st.modeChanged || s.p.needsModeset), false,
                      s.p.needsModeset, s.notifier.None?, false, false, |s.h.log|, None, None))
    case FlushStep =>
      if s.commit.flight.stage.SendReady? then Idle
      else Flushing(Advanced(s.commit.flight, s.p, |s.h.log|))
    case _ => s.commit
  }

  function NotifierAfter(s: System, a: Action): Option<bool>
    requires Enabled(s, a)
  {
    match a
    case VtStart => if VtSwitched(s.p, s.console) then Some(false) else None
    case VtStep => if s.notifier.value then None else Some(true)
    case _ => s.notifier
  }

  function Noted(h: History, s: System, a: Action): History
    requires Enabled(s, a)
  {
    match a
    case FlushStep => if s.commit.flight.stage.SendReady? then h.(flushes := h.flushes + [s.commit.flight]) else h
    case VtStep => if !s.notifier.value && Received(s.p) then h.(vt := h.vt + [VtOff]) else h
    case _ => h
  }

  function CallDone(s: System, call: Call): System
    requires |s.p.dirts| <= MAX_DIRTS
  {
    s.(p := Apply(s.p, s.console, call),
       h := Recorded(s.h, s.p, call),
       submitted := s.submitted + Submitted(call))
  }

  function Called(s: System, a: Action): System
    requires Enabled(s, a) && ByCall(a)
  {
    var call := CallOf(s, a);
    if call.None? then s else CallDone(s, call.value)
  }

  function Step(s: System, a: Action): System
    requires Enabled(s, a)
  {
    var p := s.p;
    match a
    case SwapStart(fb) => s.(refs := Get(s.refs, fb), ops := s.ops + [Swapping(fb)])
    case SwapExchange(i) =>
      s.(p := p.(scanout := s.ops[i].newFb), ops := s.ops[i := Releasing(p.scanout)])
    case Release(i) => s.(refs := Put(s.refs, s.ops[i].oldFb), ops := Without(s.ops, i))
    case GrabStart(numRects) =>
      var (q, grab) := TakeSnapshot(p, numRects);
      if grab.Refused? then s.(p := q)
      else s.(p := q, refs := Get(s.refs, Some(grab.fb)),
              ops := s.ops + [Grabbing(grab.fb, grab.rects, grab.crtc, grab.vblank)])
    case GrabComplete(i) =>
      s.(p := p.(completed := p.completed + Sent(s.ops[i].crtc, s.ops[i].vblank)),
         ops := s.ops[i := Releasing(Some(s.ops[i].fb))])
    case DisconnectClient(file) =>
      var (q, err) := Disconnect(p, file);
      if err.Some? then s
      else s.(p := q, refs := Put(s.refs, p.scanout),
              h := s.h.(cancelled := s.h.cancelled + (if p.updateRequested then 1 else 0), vt := s.h.vt + [Session]))
    case CleanUp => s.(p := Cleanup(p), refs := Put(s.refs, p.scanout), alive := false)
    case SwitchConsole(n) => s.(console := n)
    case _ =>
      var t := Called(s, a);
      t.(commit := CommitAfter(s, a), notifier := NotifierAfter(s, a), h := Noted(t.h, s, a))
  }

  function Submitted(call: Call): seq<Vblank> {
    if call.SubmitVblank? then Sent(call.crtc, call.vblank) else []
  }

  function Get(refs: multiset<Framebuffer>, fb: Option<Framebuffer>): multiset<Framebuffer> {
    if fb.None? then refs else refs[fb.value := refs[fb.value] + 1]
  }

  function Put(refs: multiset<Framebuffer>, fb: Option<Framebuffer>): multiset<Framebuffer> {
    if fb.None? || refs[fb.value] == 0 then refs else refs[fb.value := refs[fb.value] - 1]
  }

  /** The state after a run; an action that is not enabled does not happen. */
  function Run(s: System, actions: seq<Action>): System {
    if actions == [] then s
    else
      var t := Run(s, actions[..|actions| - 1]);
      var a := actions[|actions| - 1];
      if Enabled(t, a) then Step(t, a) else t
  }

  /** An action that runs a call changes no operation, no reference and no console. */
  lemma StepByCall(s: System, a: Action)
    requires Enabled(s, a) && ByCall(a)
    ensures var t, u := Step(s, a), Called(s, a);
      && t.p == u.p && t.submitted == u.submitted
      && t.ops == s.ops && t.refs == s.refs && t.alive == s.alive && t.console == s.console
      && t.h == u.h.(vt := t.h.vt, flushes := t.h.flushes)
  {
  }

  // ---- Dirty rectangles ----

  ghost predicate DirtsSafe(s: System) {
    && |s.p.dirts| <= MAX_DIRTS
    && AllFit(s.p.dirts, MAX_WIDTH, MAX_HEIGHT)
    && forall i :: 0 <= i < |s.ops| && s.ops[i].Grabbing? ==>
         |s.ops[i].rects| <= MAX_DIRTS && AllFit(s.ops[i].rects, MAX_WIDTH, MAX_HEIGHT)
  }

  lemma MarkKeepsDirtsSafe(p: PainterState, rect: Rect)
    requires |p.dirts| <= MAX_DIRTS && AllFit(p.dirts, MAX_WIDTH, MAX_HEIGHT)
    ensures var q := MarkDirty(p, rect);
      && |q.dirts| <= MAX_DIRTS && AllFit(q.dirts, MAX_WIDTH, MAX_HEIGHT)
      && (p.dirts != [] || p.scanout.Some? ==> q.dirts != [])
  {
    if p.scanout.Some? {
      MarkedCovers(p.dirts, Sanitized(p.scanout.value, rect));
    }
  }

  lemma GrabKeepsDirtsSafe(p: PainterState, numRects: int)
    requires |p.dirts| <= MAX_DIRTS && AllFit(p.dirts, MAX_WIDTH, MAX_HEIGHT)
    ensures var (q, grab) := TakeSnapshot(p, numRects);
      && |q.dirts| <= MAX_DIRTS && AllFit(q.dirts, MAX_WIDTH, MAX_HEIGHT)
      && (grab.Refused? && p.dirts != [] ==> q.dirts != [])
      && (grab.Snapshot? ==>
            && |grab.rects| <= numRects && |grab.rects| <= MAX_DIRTS
            && AllFit(grab.rects, MAX_WIDTH, MAX_HEIGHT)
            && (p.dirts != [] ==> grab.rects != []))
  {
    if numRects >= 1 {
      TakenCovers(p.dirts, numRects);
    }
  }

  /** No call empties the list, and all of them keep it safe. */
  lemma CallKeepsDirts(p: PainterState, console: int, call: Call)
    requires |p.dirts| <= MAX_DIRTS && AllFit(p.dirts, MAX_WIDTH, MAX_HEIGHT)
    ensures var q := Apply(p, console, call);
      && |q.dirts| <= MAX_DIRTS && AllFit(q.dirts, MAX_WIDTH, MAX_HEIGHT)
      && (p.dirts != [] ==> q.dirts != [])
      && (q.dirts != p.dirts ==> call.Mark? && p.scanout.Some?)
  {
    if call.Mark? {
      MarkKeepsDirtsSafe(p, call.rect);
    }
  }

  lemma StepKeepsDirtsSafe(s: System, a: Action)
    requires DirtsSafe(s) && Enabled(s, a)
    ensures DirtsSafe(Step(s, a))
  {
    if ByCall(a) {
      StepByCall(s, a);
      if CallOf(s, a).Some? {
        CallKeepsDirts(s.p, s.console, CallOf(s, a).value);
      }
    } else if a.GrabStart? {
      GrabKeepsDirtsSafe(s.p, a.numRects);
    }
  }

  // ---- Framebuffer references ----

  /** The references to `x`: one if it is the scanout, one for each operation holding it. */
  ghost predicate RefConserved(s: System, x: Framebuffer) {
    s.refs[x] == Ref(s.p.scanout, x) + Sum(RefsTo(x), s.ops)
  }

  /** How a step changes a sum over the operations in flight. */
  function Delta(s: System, a: Action, f: Op -> nat): int
    requires Enabled(s, a)
  {
    match a
    case SwapStart(fb) => f(Swapping(fb))
    case SwapExchange(i) => f(Releasing(s.p.scanout)) - f(s.ops[i])
    case Release(i) => 0 - f(s.ops[i])
    case GrabStart(numRects) =>
      var grab := TakeSnapshot(s.p, numRects).1;
      if grab.Refused? then 0 else f(Grabbing(grab.fb, grab.rects, grab.crtc, grab.vblank))
    case GrabComplete(i) => f(Releasing(Some(s.ops[i].fb))) - f(s.ops[i])
    case _ => 0
  }

  lemma StepChangesSum(s: System, a: Action, f: Op -> nat)
    requires Enabled(s, a)
    ensures Sum(f, Step(s, a).ops) == Sum(f, s.ops) + Delta(s, a, f)
  {
    match a
    case SwapStart(fb) => SumAppend(f, s.ops, Swapping(fb));
    case SwapExchange(i) => SumUpdate(f, s.ops, i, Releasing(s.p.scanout));
    case Release(i) => SumWithout(f, s.ops, i);
    case GrabStart(numRects) =>
      var grab := TakeSnapshot(s.p, numRects).1;
      if grab.Snapshot? {
        SumAppend(f, s.ops, Grabbing(grab.fb, grab.rects, grab.crtc, grab.vblank));
      }
    case GrabComplete(i) => SumUpdate(f, s.ops, i, Releasing(Some(s.ops[i].fb)));
    case _ =>
  }

  lemma GetCounts(refs: multiset<Framebuffer>, fb: Option<Framebuffer>, x: Framebuffer)
    ensures Get(refs, fb)[x] == refs[x] + Ref(fb, x)
  {
  }

  lemma PutCounts(refs: multiset<Framebuffer>, fb: Option<Framebuffer>, x: Framebuffer)
    requires refs[x] >= Ref(fb, x)
    ensures Put(refs, fb)[x] == refs[x] - Ref(fb, x)
  {
  }

  lemma GrabStartKeepsRef(s: System, numRects: int, x: Framebuffer)
    requires RefConserved(s, x) && Enabled(s, GrabStart(numRects))
    ensures RefConserved(Step(s, GrabStart(numRects)), x)
  {
  }

  lemma SwapKeepsRef(s: System, a: Action, x: Framebuffer)
    requires RefConserved(s, x) && Enabled(s, a)
    requires a.SwapStart? || a.SwapExchange? || a.Release? || a.GrabComplete?
    ensures RefConserved(Step(s, a), x)
  {
    StepChangesSum(s, a, RefsTo(x));
    if a.Release? {
      SumWithout(RefsTo(x), s.ops, a.i);
      PutCounts(s.refs, s.ops[a.i].oldFb, x);
    } else if a.SwapStart? {
      GetCounts(s.refs, a.newFb, x);
    }
  }

  lemma CallKeepsScanout(p: PainterState, console: int, call: Call)
    requires |p.dirts| <= MAX_DIRTS
    ensures Apply(p, console, call).scanout == p.scanout
  {
  }

  lemma ByCallKeepsRef(s: System, a: Action, x: Framebuffer)
    requires RefConserved(s, x) && Enabled(s, a) && ByCall(a)
    ensures RefConserved(Step(s, a), x)
  {
    StepByCall(s, a);
    if CallOf(s, a).Some? {
      CallKeepsScanout(s.p, s.console, CallOf(s, a).value);
    }
  }

  lemma StepKeepsRef(s: System, a: Action, x: Framebuffer)
    requires RefConserved(s, x) && Enabled(s, a)
    ensures RefConserved(Step(s, a), x)
  {
    if ByCall(a) {
      ByCallKeepsRef(s, a, x);
    } else if a.GrabStart? {
      GrabStartKeepsRef(s, a.numRects, x);
    } else if a.SwapStart? || a.SwapExchange? || a.Release? || a.GrabComplete? {
      SwapKeepsRef(s, a, x);
    }
  }

  /** So whatever an operation holds is referenced: a framebuffer is never released while it is
      being copied, and a put never drops a count that is already zero. */
  lemma HeldIsReferenced(s: System, i: nat, x: Framebuffer)
    requires RefConserved(s, x) && i < |s.ops| && RefsTo(x)(s.ops[i]) > 0
    ensures s.refs[x] > 0
  {
    SumWithout(RefsTo(x), s.ops, i);
  }

  // ---- Vblank events ----

  /** Every submission of `v` is completed, held by the painter, or in flight; and a held vblank
      means a connected painter with damage to grab. */
  ghost predicate VblankConserved(s: System, v: Vblank) {
    Count(s.submitted, v)
      == Count(s.p.completed, v) + Count(Sent(s.p.crtc, s.p.vblank), v) + Sum(HoldsOf(v), s.ops)
  }

  ghost predicate VblankHeldForDamage(p: PainterState) {
    p.vblank.Some? ==> p.connected && p.dirts != []
  }

  lemma OtherCallsKeepVblanks(p: PainterState, console: int, call: Call)
    requires |p.dirts| <= MAX_DIRTS && !call.SubmitVblank?
    ensures var q := Apply(p, console, call);
      q.completed == p.completed && q.crtc == p.crtc && q.vblank == p.vblank
      && (p.connected ==> q.connected)
  {
  }

  lemma CallKeepsVblank(p: PainterState, console: int, call: Call, v: Vblank)
    requires |p.dirts| <= MAX_DIRTS
    ensures var q := Apply(p, console, call);
      Count(q.completed, v) + Count(Sent(q.crtc, q.vblank), v)
        == Count(p.completed, v) + Count(Sent(p.crtc, p.vblank), v) + Count(Submitted(call), v)
  {
    if call.SubmitVblank? {
      var q := SendHeldVblank(p);
      CountAppend(p.completed, Sent(p.crtc, p.vblank), v);
      CountAppend(q.completed, Sent(call.crtc, call.vblank), v);
    } else {
      OtherCallsKeepVblanks(p, console, call);
    }
  }

  lemma ByCallKeepsVblank(s: System, a: Action, v: Vblank)
    requires VblankConserved(s, v) && Enabled(s, a) && ByCall(a)
    ensures VblankConserved(Step(s, a), v)
  {
    StepByCall(s, a);
    if CallOf(s, a).Some? {
      CallKeepsVblank(s.p, s.console, CallOf(s, a).value, v);
      CountAppend(s.submitted, Submitted(CallOf(s, a).value), v);
    }
  }

  lemma GrabStartKeepsVblank(s: System, numRects: int, v: Vblank)
    requires VblankConserved(s, v) && Enabled(s, GrabStart(numRects))
    ensures VblankConserved(Step(s, GrabStart(numRects)), v)
  {
    StepChangesSum(s, GrabStart(numRects), HoldsOf(v));
    var (q, grab) := TakeSnapshot(s.p, numRects);
    assert q.completed == s.p.completed;
    if grab.Snapshot? {
      var op := Grabbing(grab.fb, grab.rects, grab.crtc, grab.vblank);
      assert HoldsOf(v)(op) == Count(Sent(s.p.crtc, s.p.vblank), v) && Sent(q.crtc, q.vblank) == [];
    }
  }

  lemma OpStepKeepsVblank(s: System, a: Action, v: Vblank)
    requires VblankConserved(s, v) && Enabled(s, a)
    requires a.SwapStart? || a.SwapExchange? || a.Release? || a.GrabComplete?
    ensures VblankConserved(Step(s, a), v)
  {
    StepChangesSum(s, a, HoldsOf(v));
    hide Sum, Get, Put, Without, TakeSnapshot;
    if a.GrabComplete? {
      CountAppend(s.p.completed, Sent(s.ops[a.i].crtc, s.ops[a.i].vblank), v);
    }
  }

  lemma StepKeepsVblank(s: System, a: Action, v: Vblank)
    requires VblankConserved(s, v) && Enabled(s, a)
    ensures VblankConserved(Step(s, a), v)
  {
    if ByCall(a) {
      ByCallKeepsVblank(s, a, v);
    } else if a.GrabStart? {
      GrabStartKeepsVblank(s, a.numRects, v);
    } else if a.SwapStart? || a.SwapExchange? || a.Release? || a.GrabComplete? {
      OpStepKeepsVblank(s, a, v);
    } else {
      CountAppend(s.p.completed, Sent(s.p.crtc, s.p.vblank), v);
    }
  }

  lemma StepKeepsHeldForDamage(s: System, a: Action)
    requires VblankHeldForDamage(s.p) && DirtsSafe(s) && Enabled(s, a)
    ensures VblankHeldForDamage(Step(s, a).p)
  {
    if ByCall(a) {
      StepByCall(s, a);
      var call := CallOf(s, a);
      if call.Some? {
        CallKeepsDirts(s.p, s.console, call.value);
        if !call.value.SubmitVblank? {
          OtherCallsKeepVblanks(s.p, s.console, call.value);
        }
      }
    } else if a.GrabStart? {
      GrabKeepsDirtsSafe(s.p, a.numRects);
    }
  }

  // ---- The event queue ----

  ghost predicate QueueSound(q: Queue) {
    && (q.pending != [] ==> q.scheduled)
    && NoTwins(q.pending)
    && Replay(q.accepted) == Replay(q.delivered + q.pending)
  }

  /** Nothing is stranded: a non-empty list has its retry scheduled, and a scheduled retry has a
      client to serve. Without a client the list is empty. */
  ghost predicate QueueServed(p: PainterState) {
    && QueueSound(p.queue)
    && (p.queue.scheduled ==> p.filp.Some?)
    && (p.connected <==> p.filp.Some?)
  }

  lemma DropKeepsNoTwins(es: seq<Event>, n: nat)
    requires n <= |es| && NoTwins(es)
    ensures NoTwins(es[n..])
  {
  }

  lemma FlushKeepsStream(q: Queue)
    ensures Flush(q).delivered + Flush(q).pending == q.delivered + q.pending
  {
  }

  lemma FlushKeepsSound(q: Queue)
    requires NoTwins(q.pending) && Replay(q.accepted) == Replay(q.delivered + q.pending)
    ensures QueueSound(Flush(q))
  {
    FlushKeepsStream(q);
    DropKeepsNoTwins(q.pending, FlushCount(q.pending, q.space));
  }

  lemma SendKeepsSound(q: Queue, e: Event)
    requires QueueSound(q)
    ensures QueueSound(Send(q, e))
  {
    EnqueuePreservesMeaning(q.accepted, q.delivered, q.pending, e);
    EnqueueKeepsNoTwins(q.pending, e);
    FlushKeepsSound(Accept(q, e));
  }

  lemma ConnectKeepsSound(q: Queue, space: nat)
    requires QueueSound(q)
    ensures QueueSound(q.(space := space, delivered := [], accepted := q.pending))
  {
    assert [] + q.pending == q.pending;
  }

  lemma SendEventKeepsServed(p: PainterState, e: Event)
    requires QueueServed(p)
    ensures QueueServed(SendEvent(p, e))
  {
    SendKeepsSound(p.queue, e);
  }

  lemma CallKeepsServed(p: PainterState, console: int, call: Call)
    requires |p.dirts| <= MAX_DIRTS && QueueServed(p)
    ensures QueueServed(Apply(p, console, call))
  {
    match call
    case FlushReady => SendEventKeepsServed(p, UpdateReady);
    case Post(e) => SendEventKeepsServed(p, e);
    case RunWork => FlushKeepsSound(p.queue);
    case ConnectClient(file, space, _) => ConnectKeepsSound(p.queue, space);
    case _ =>
  }

  lemma EmptyQueueSound()
    ensures QueueSound(EMPTY_QUEUE)
  {
    var none: seq<Event> := [];
    assert none + none == none;
  }

  /** Other steps leave the queue alone or empty it, and drop the client only with the connection. */
  lemma OtherStepQueue(s: System, a: Action)
    requires Enabled(s, a) && !ByCall(a)
    ensures var q := Step(s, a).p;
      && (q.queue == s.p.queue || q.queue == EMPTY_QUEUE)
      && ((q.filp == s.p.filp && q.connected == s.p.connected)
          || (q.filp.None? && !q.connected && q.queue == EMPTY_QUEUE))
  {
    hide Taken, Get, Put, Sent, Without;
  }

  lemma OtherStepKeepsServed(s: System, a: Action)
    requires QueueServed(s.p) && Enabled(s, a) && !ByCall(a)
    ensures QueueServed(Step(s, a).p)
  {
    hide Step, QueueSound;
    OtherStepQueue(s, a);
    EmptyQueueSound();
  }

  lemma StepKeepsServed(s: System, a: Action)
    requires QueueServed(s.p) && Enabled(s, a)
    ensures QueueServed(Step(s, a).p)
  {
    hide QueueServed, Step, Apply, ByCall;
    if ByCall(a) {
      StepByCall(s, a);
      if CallOf(s, a).Some? {
        CallKeepsServed(s.p, s.console, CallOf(s, a).value);
      }
    } else {
      OtherStepKeepsServed(s, a);
    }
  }

  // ---- The update handshake ----

  /** Every request met exactly one fate or is the one outstanding; and if that one has damage to
      wait for, the damage came after the last flush. */
  ghost predicate HandshakeHonest(p: PainterState, h: History) {
    && h.requests == h.ignored + h.answered + h.readied + h.cancelled
                     + (if p.updateRequested then 1 else 0)
    && (ReadyDue(p) ==> h.markedSinceFlush)
  }

  lemma CallKeepsHandshake(p: PainterState, h: History, console: int, call: Call)
    requires |p.dirts| <= MAX_DIRTS && HandshakeHonest(p, h)
    ensures HandshakeHonest(Apply(p, console, call), Recorded(h, p, call))
  {
  }

  lemma StepKeepsHandshake(s: System, a: Action)
    requires HandshakeHonest(s.p, s.h) && Enabled(s, a)
    ensures HandshakeHonest(Step(s, a).p, Step(s, a).h)
  {
    if ByCall(a) {
      StepByCall(s, a);
      if CallOf(s, a).Some? {
        CallKeepsHandshake(s.p, s.h, s.console, CallOf(s, a).value);
      }
    } else if a.GrabStart? && a.numRects >= 1 {
      TakenCovers(s.p.dirts, a.numRects);
    }
  }
}
