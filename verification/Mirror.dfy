/** The client's copy of the screen. One scanout buffer, one client with one buffer; framebuffer
    writes, damage reports, cursor updates and a grab interleave pixel by pixel. */
module Mirror {
  import opened Wrappers
  import opened Rects
  import opened DirtyRects
  import opened Blend
  import opened CursorPlane

  datatype Grab =
    | Idle
    | Copying(rects: seq<Rect>, copied: iset<Point>)
    | Composing(rects: seq<Rect>, drawn: iset<Point>)   // with the cursor locked

  /** A state of the cursor plane: where it is, and its image if it has one. */
  datatype Plane_Raw = Plane(x: int, y: int, w: nat, h: nat, image: Option<Image>)
  type Plane = p: Plane_Raw | p.image.Some? ==> p.w <= MAX_WIDTH && p.h <= MAX_HEIGHT
    witness Plane(0, 0, 0, 0, None)

  datatype State = State(
    screen: Framebuffer,
    softCursor: bool,          // cursor events are off: the grab draws the cursor
    rectUpdates: bool,         // a cursor update reports two rectangles, not the whole screen
    fb: Image,
    client: Image,
    plane: Plane,              // the cursor plane as last committed
    cursor: Cursor,            // the cursor object that a grab draws
    update: Option<Plane>,     // an update that has moved the cursor object and not yet changed it
    dirts: seq<Rect>,
    unmarked: iset<Point>,     // written, damage not yet reported
    owed: seq<Rect>,           // rectangles a cursor update has still to report
    smudged: iset<Point>,      // drawn, or left undrawn, while the cursor object was between states
    stale: iset<Point>,        // damage nobody will report: a failed grab's, or a cursor update's
    grab: Grab)

  datatype Action =
    | Write(region: iset<Point>, image: Image)
    | Mark(rect: Rect)
    | UpdateCursor(next: Plane)
    | ApplyUpdate
    | MarkOwed
    | StartGrab(numRects: int)
    | CopyPixel(p: Point)
    | EndCopy
    | DrawPixel(p: Point)
    | EndGrab
    | FailGrab

  predicate Visible(s: State, p: Point) {
    OnScreen(s.screen, p.x, p.y)
  }

  ghost predicate Listed(rs: seq<Rect>, p: Point) {
    Covered(rs, p.x, p.y)
  }

  predicate Reported(screen: Framebuffer, rect: Rect, p: Point) {
    Inside(Sanitized(screen, rect), p.x, p.y)
  }

  /** The cursor a plane state asks for. */
  function Target(plane: Plane): Cursor {
    match plane.image
    case Some(image) => CursorPlane.Cursor(true, plane.x, plane.y, plane.w, plane.h, image)
    case None => CursorPlane.Cursor(false, plane.x, plane.y, 0, 0, (_: Point) => ZERO)
  }

  /** The cursor of `plane` at the place of `next`: the object between the two steps of an update. */
  function MovedTo(plane: Plane, next: Plane): Cursor {
    Target(plane).(x := next.x, y := next.y)
  }

  predicate SoftDraws(s: State, p: Point) {
    s.softCursor && Draws(Target(s.plane), p)
  }

  function Ideal(s: State, p: Point): Word {
    if s.softCursor then Composed(s.fb, Target(s.plane), p) else s.fb(p)
  }

  function Put(image: Image, at: Point, value: Word): Image {
    (p: Point) => if p == at then value else image(p)
  }

  function RectOf(plane: Plane): Rect {
    CursorRect(plane.x, plane.y, plane.w, plane.h)
  }

  /** The reports a cursor update makes, old position first; the old one is the plane's. */
  function Reports(screen: Framebuffer, rectUpdates: bool, plane: Plane, next: Plane): seq<Rect> {
    if next.image.None? then []
    else if rectUpdates then [RectOf(plane), RectOf(next)]
    else [Full(screen)]
  }

  ghost predicate ReportedIn(screen: Framebuffer, rects: seq<Rect>, p: Point) {
    exists i :: 0 <= i < |rects| && Reported(screen, rects[i], p)
  }

  ghost predicate SameShape(a: Plane, b: Plane) {
    a.image == b.image && a.w == b.w && a.h == b.h
  }

  /** A cursor update moves the object, then sets or disables it, each under the cursor's lock, which
      a composing grab holds; commits do not overlap. */
  ghost predicate Enabled(s: State, a: Action) {
    match a
    case Write(_, _) => true
    case Mark(_) => |s.dirts| <= MAX_DIRTS
    case UpdateCursor(_) => s.update.None? && s.owed == [] && !s.grab.Composing?
    case ApplyUpdate => s.update.Some? && (s.grab.Composing? ==> SameShape(s.plane, s.update.value))
    case MarkOwed => s.owed != [] && |s.dirts| <= MAX_DIRTS
    case StartGrab(numRects) => s.grab.Idle? && numRects >= 1
    case CopyPixel(p) => s.grab.Copying? && Listed(s.grab.rects, p)
    case EndCopy => s.grab.Copying? && forall p :: Listed(s.grab.rects, p) ==> p in s.grab.copied
    case DrawPixel(p) => s.grab.Composing? && Draws(s.cursor, p) && Visible(s, p)
    case EndGrab => s.grab.Composing? && forall p :: Draws(s.cursor, p) && Visible(s, p) ==> p in s.grab.drawn
    case FailGrab => !s.grab.Idle?
  }

  ghost function Marking(s: State, rect: Rect): State
    requires |s.dirts| <= MAX_DIRTS
  {
    s.(dirts := Marked(s.dirts, Sanitized(s.screen, rect)),
       stale := iset p | p in s.stale && !Reported(s.screen, rect, p))
  }

  /** What the update under way has touched, or is about to. */
  ghost predicate Touched(s: State, next: Plane, p: Point) {
    s.softCursor && (p in s.smudged || Draws(Target(s.plane), p) || Draws(Target(next), p))
  }

  ghost function OwedBy(s: State, next: Plane): seq<Rect> {
    if s.softCursor then Reports(s.screen, s.rectUpdates, s.plane, next) else []
  }

  ghost predicate Lost(s: State, next: Plane, p: Point) {
    Touched(s, next, p) && !ReportedIn(s.screen, OwedBy(s, next), p)
  }

  ghost function Applied(s: State, next: Plane): State {
    s.(cursor := if next.image.None? then s.cursor.(visible := false) else Target(next),
       plane := next, update := None, owed := OwedBy(s, next),
       stale := s.stale + (iset p | Lost(s, next, p)), smudged := iset{})
  }

  ghost function Smudge(s: State, region: iset<Point>): iset<Point> {
    if s.update.Some? then s.smudged + region else s.smudged
  }

  ghost function Step(s: State, a: Action): State
    requires Enabled(s, a)
  {
    match a
    case Write(region, image) =>
      s.(fb := (p: Point) => if p in region then image(p) else s.fb(p), unmarked := s.unmarked + region)
    case Mark(rect) =>
      Marking(s, rect).(unmarked := iset p | p in s.unmarked && !Reported(s.screen, rect, p))
    case UpdateCursor(next) => s.(cursor := s.cursor.(x := next.x, y := next.y), update := Some(next))
    case ApplyUpdate => Applied(s, s.update.value)
    case MarkOwed => Marking(s, s.owed[0]).(owed := s.owed[1..])
    case StartGrab(numRects) => s.(grab := Copying(Taken(s.dirts, numRects), iset{}), dirts := [])
    case CopyPixel(p) =>
      s.(client := Put(s.client, p, s.fb(p)), grab := s.grab.(copied := s.grab.copied + iset{p}))
    case EndCopy => s.(grab := if s.softCursor then Composing(s.grab.rects, iset{}) else Idle)
    case DrawPixel(p) =>
      s.(client := Put(s.client, p, Composed(s.fb, s.cursor, p)),
         grab := s.grab.(drawn := s.grab.drawn + iset{p}), smudged := Smudge(s, iset{p}))
    case EndGrab => s.(grab := Idle, smudged := Smudge(s, iset p | InFlight(s, p)))
    case FailGrab => s.(stale := s.stale + (iset p | InFlight(s, p)), grab := Idle)
  }

  /** What the grab under way has still to bring up to date. */
  ghost predicate InFlight(s: State, p: Point) {
    match s.grab
    case Idle => false
    case Copying(rects, copied) => Listed(rects, p) && (p !in copied || SoftDraws(s, p))
    case Composing(rects, drawn) => Listed(rects, p) && SoftDraws(s, p) && p !in drawn
  }

  ghost predicate Owed(s: State, p: Point) {
    ReportedIn(s.screen, s.owed, p)
  }

  ghost predicate Pending(s: State, p: Point) {
    Listed(s.dirts, p) || Owed(s, p) || p in s.unmarked || p in s.smudged || p in s.stale || InFlight(s, p)
  }

  ghost predicate Faithful(s: State, p: Point) {
    Visible(s, p) && s.client(p) != Ideal(s, p) ==> Pending(s, p)
  }

  ghost predicate SameCursor(a: Cursor, b: Cursor) {
    a.visible == b.visible && (a.visible ==> a == b)
  }

  /** The cursor object is the plane's, or between the plane's and the next; only then is a pixel
      smudged, and only where the one or the other is. */
  ghost predicate CursorInStep(s: State) {
    match s.update
    case None => SameCursor(s.cursor, Target(s.plane)) && s.smudged == iset{}
    case Some(next) =>
      && SameCursor(s.cursor, MovedTo(s.plane, next)) && s.owed == []
      && forall p :: p in s.smudged ==> s.softCursor && (Draws(Target(s.plane), p) || Draws(s.cursor, p))
  }

  /** In particular the rectangles of a grab pass the copy's check against the buffer size. */
  ghost predicate WellFormed(s: State) {
    && |s.dirts| <= MAX_DIRTS
    && AllFit(s.dirts, s.screen.width, s.screen.height)
    && (!s.grab.Idle? ==> AllFit(s.grab.rects, s.screen.width, s.screen.height))
    && (s.grab.Composing? ==> s.softCursor)
    && CursorInStep(s)
  }

  /** Wherever the client differs from the ideal picture, the difference is accounted for. */
  ghost predicate Mirrored(s: State) {
    WellFormed(s) && forall p :: Faithful(s, p)
  }

  lemma MarkingCovers(s: State, rect: Rect, p: Point)
    requires |s.dirts| <= MAX_DIRTS
    ensures |Marking(s, rect).dirts| <= MAX_DIRTS
    ensures Listed(s.dirts, p) || Reported(s.screen, rect, p) ==> Listed(Marking(s, rect).dirts, p)
  {
    MarkedCovers(s.dirts, Sanitized(s.screen, rect));
  }

  /** A cursor update that shows a cursor reports every pixel at which the ideal picture changes. */
  lemma ReportsCover(screen: Framebuffer, rectUpdates: bool, plane: Plane, next: Plane, p: Point)
    requires OnScreen(screen, p.x, p.y) && next.image.Some?
    requires Draws(Target(plane), p) || Draws(Target(next), p)
    ensures ReportedIn(screen, Reports(screen, rectUpdates, plane, next), p)
  {
    var rects := Reports(screen, rectUpdates, plane, next);
    if !rectUpdates {
      assert Reported(screen, rects[0], p);
    } else if Draws(Target(plane), p) {
      CursorRectCovers(screen, plane.x, plane.y, plane.w, plane.h, p);
      assert Reported(screen, rects[0], p);
    } else {
      CursorRectCovers(screen, next.x, next.y, next.w, next.h, p);
      assert Reported(screen, rects[1], p);
    }
  }

  lemma MarkStepFaithful(s: State, a: Action, p: Point)
    requires WellFormed(s) && Faithful(s, p) && Enabled(s, a) && (a.Mark? || a.MarkOwed?)
    ensures Faithful(Step(s, a), p)
  {
    var t := Step(s, a);
    MarkingCovers(s, if a.Mark? then a.rect else s.owed[0], p);
    if a.MarkOwed? && Owed(s, p) && !Reported(s.screen, s.owed[0], p) {
      var i :| 0 <= i < |s.owed| && Reported(s.screen, s.owed[i], p);
      assert Reported(t.screen, t.owed[i - 1], p);
    }
  }

  lemma UpdateStepFaithful(s: State, a: Action, p: Point)
    requires WellFormed(s) && Faithful(s, p) && Enabled(s, a) && (a.UpdateCursor? || a.ApplyUpdate?)
    ensures Faithful(Step(s, a), p)
  {
    var t := Step(s, a);
    if a.ApplyUpdate? && !Touched(s, s.update.value, p) {
      assert Ideal(t, p) == Ideal(s, p) && SoftDraws(t, p) == SoftDraws(s, p);
    }
  }

  lemma GrabStepFaithful(s: State, a: Action, p: Point)
    requires WellFormed(s) && Faithful(s, p) && Enabled(s, a)
    requires a.StartGrab? || a.CopyPixel? || a.EndCopy? || a.DrawPixel? || a.EndGrab? || a.FailGrab?
    ensures Faithful(Step(s, a), p)
  {
    if a.StartGrab? {
      TakenCovers(s.dirts, a.numRects);
    }
  }

  lemma WriteStepFaithful(s: State, a: Action, p: Point)
    requires Faithful(s, p) && a.Write?
    ensures Faithful(Step(s, a), p)
  {
  }

  lemma StepKeepsMirrored(s: State, a: Action)
    requires Mirrored(s) && Enabled(s, a)
    ensures Mirrored(Step(s, a))
  {
    forall p
      ensures Faithful(Step(s, a), p)
    {
      assert Faithful(s, p);
      match a
      case Write(_, _) => WriteStepFaithful(s, a, p);
      case Mark(_) => MarkStepFaithful(s, a, p);
      case MarkOwed => MarkStepFaithful(s, a, p);
      case UpdateCursor(_) => UpdateStepFaithful(s, a, p);
      case ApplyUpdate => UpdateStepFaithful(s, a, p);
      case _ => GrabStepFaithful(s, a, p);
    }
    StepKeepsWellFormed(s, a);
  }

  lemma StepKeepsWellFormed(s: State, a: Action)
    requires WellFormed(s) && Enabled(s, a)
    ensures WellFormed(Step(s, a))
  {
    match a
    case Mark(rect) => MarkedCovers(s.dirts, Sanitized(s.screen, rect));
    case MarkOwed => MarkedCovers(s.dirts, Sanitized(s.screen, s.owed[0]));
    case StartGrab(numRects) => TakenCovers(s.dirts, numRects);
    case _ =>
  }

  // ---- Runs ----

  /** The state after a run; an action that is not enabled does not happen. */
  ghost function Run(s: State, actions: seq<Action>): State {
    if actions == [] then s
    else
      var t := Run(s, actions[..|actions| - 1]);
      var a := actions[|actions| - 1];
      if Enabled(t, a) then Step(t, a) else t
  }

  lemma {:induction false} RunSplits(s: State, a: seq<Action>, b: seq<Action>)
    ensures Run(s, a + b) == Run(Run(s, a), b)
  {
    if b == [] {
      assert a + b == a;
    } else {
      var n := |b| - 1;
      assert (a + b)[..|a| + n] == a + b[..n];
      RunSplits(s, a, b[..n]);
    }
  }

  lemma RunFirst(s: State, a: Action)
    ensures Run(s, [a]) == if Enabled(s, a) then Step(s, a) else s
  {
    assert [a][..0] == [] && Run(s, []) == s;
  }

  /** A client may start with anything in its buffer, as long as the whole screen is to be reported. */
  lemma StartIsMirrored(s: State)
    requires WellFormed(s) && forall p :: Visible(s, p) ==> p in s.unmarked
    ensures Mirrored(s)
  {
  }

  /** The mirror invariant holds over every run. */
  lemma {:induction false} RunKeepsMirrored(s: State, actions: seq<Action>)
    requires Mirrored(s)
    ensures Mirrored(Run(s, actions))
  {
    if actions != [] {
      var stem := actions[..|actions| - 1];
      RunKeepsMirrored(s, stem);
      if Enabled(Run(s, stem), actions[|actions| - 1]) {
        StepKeepsMirrored(Run(s, stem), actions[|actions| - 1]);
      }
    }
  }

  ghost predicate InSync(s: State) {
    forall p :: Visible(s, p) ==> s.client(p) == Ideal(s, p)
  }

  ghost predicate OnlyInFlight(s: State) {
    WellFormed(s) && s.update.None? && forall p :: Visible(s, p) && s.client(p) != Ideal(s, p) ==> InFlight(s, p)
  }

  /** The steps of a grab after its snapshot, when all goes well. */
  predicate GrabStep(a: Action) {
    a.CopyPixel? || a.EndCopy? || a.DrawPixel? || a.EndGrab? || a.Mark?
  }

  lemma GrabStepKeepsOnlyInFlight(s: State, a: Action)
    requires OnlyInFlight(s) && Enabled(s, a) && GrabStep(a)
    ensures OnlyInFlight(Step(s, a))
  {
    var t := Step(s, a);
    StepKeepsWellFormed(s, a);
    forall p | Visible(t, p) && t.client(p) != Ideal(t, p)
      ensures InFlight(t, p)
    {
      GrabStepKeepsInFlight(s, a, p);
    }
  }

  lemma GrabStepKeepsInFlight(s: State, a: Action, p: Point)
    requires WellFormed(s) && s.update.None? && Enabled(s, a) && GrabStep(a)
    requires Visible(s, p) && s.client(p) != Ideal(s, p) ==> InFlight(s, p)
    ensures var t := Step(s, a); Visible(t, p) && t.client(p) != Ideal(t, p) ==> InFlight(t, p)
  {
  }

  lemma {:induction false} GrabRun(s: State, actions: seq<Action>)
    requires OnlyInFlight(s)
    requires forall i :: 0 <= i < |actions| ==> GrabStep(actions[i])
    ensures OnlyInFlight(Run(s, actions))
  {
    if actions != [] {
      var stem := actions[..|actions| - 1];
      assert GrabStep(actions[|actions| - 1]);
      GrabRun(s, stem);
      if Enabled(Run(s, stem), actions[|actions| - 1]) {
        GrabStepKeepsOnlyInFlight(Run(s, stem), actions[|actions| - 1]);
      }
    }
  }

  /** No damage on the screen has been lost. */
  ghost predicate NoneStale(s: State) {
    forall p :: Visible(s, p) ==> p !in s.stale
  }

  ghost predicate AllReported(s: State) {
    s.unmarked == iset{} && s.owed == [] && s.update.None? && NoneStale(s) && s.grab.Idle?
  }

  /** Once everything written is reported, a grab that completes with no write in between leaves
      the client with exactly the picture it should show. */
  lemma GrabSynchronises(s: State, numRects: int, actions: seq<Action>)
    requires Mirrored(s) && AllReported(s) && numRects >= 1
    requires forall i :: 0 <= i < |actions| ==> GrabStep(actions[i])
    requires Run(Step(s, StartGrab(numRects)), actions).grab.Idle?
    ensures InSync(Run(Step(s, StartGrab(numRects)), actions))
  {
    var t := Step(s, StartGrab(numRects));
    StepKeepsWellFormed(s, StartGrab(numRects));
    forall p | Visible(t, p) && t.client(p) != Ideal(t, p)
      ensures InFlight(t, p)
    {
      assert Faithful(s, p);
      TakenCovers(s.dirts, numRects);
    }
    GrabRun(t, actions);
  }

  // ---- Moving and changing the cursor ----

  /** Finishing the update loses no damage on the screen. */
  ghost predicate NothingLost(s: State, next: Plane) {
    forall p :: Visible(s, p) ==> !Lost(s, next, p)
  }

  ghost predicate OffScreen(screen: Framebuffer, c: Cursor) {
    forall p: Point :: OnScreen(screen, p.x, p.y) ==> !Draws(c, p)
  }

  /** An update loses nothing exactly when it leaves a cursor or had none on the screen, and all that a
      grab smudged in the middle of it is reported. */
  lemma ApplyLosesNothingIff(s: State, next: Plane)
    requires WellFormed(s) && s.softCursor && s.update == Some(next)
    ensures NothingLost(s, next) <==>
      && (next.image.Some? || OffScreen(s.screen, Target(s.plane)))
      && (forall p :: Visible(s, p) && p in s.smudged ==> ReportedIn(s.screen, OwedBy(s, next), p))
  {
    if next.image.Some? {
      forall p | Visible(s, p) && (Draws(Target(s.plane), p) || Draws(Target(next), p))
        ensures !Lost(s, next, p)
      {
        ReportsCover(s.screen, s.rectUpdates, s.plane, next, p);
      }
    }
    if NothingLost(s, next) {
      forall p | Visible(s, p) && p in s.smudged
        ensures ReportedIn(s.screen, OwedBy(s, next), p)
      {
        assert !Lost(s, next, p);
      }
      if next.image.None? {
        forall p: Point | OnScreen(s.screen, p.x, p.y)
          ensures !Draws(Target(s.plane), p)
        {
          assert !Lost(s, next, p);
        }
      }
    }
  }

  /** An update that loses nothing however a grab falls in: the old shape at the new place lies in the
      rectangles reported. */
  ghost predicate Harmless(screen: Framebuffer, rectUpdates: bool, plane: Plane, next: Plane) {
    && (next.image.Some? || OffScreen(screen, Target(plane)))
    && forall p: Point :: OnScreen(screen, p.x, p.y) && Draws(MovedTo(plane, next), p) ==>
         ReportedIn(screen, Reports(screen, rectUpdates, plane, next), p)
  }

  lemma HarmlessLosesNothing(s: State, next: Plane)
    requires WellFormed(s) && s.softCursor && s.update == Some(next)
    requires Harmless(s.screen, s.rectUpdates, s.plane, next)
    ensures NothingLost(s, next)
  {
    forall p | Visible(s, p) && p in s.smudged
      ensures ReportedIn(s.screen, OwedBy(s, next), p)
    {
      if Draws(Target(s.plane), p) {
        ReportsCover(s.screen, s.rectUpdates, s.plane, next, p);
      }
    }
    ApplyLosesNothingIff(s, next);
  }

  /** A cursor that keeps its shape may be moved at any time. */
  lemma MovingIsHarmless(screen: Framebuffer, rectUpdates: bool, plane: Plane, next: Plane)
    requires SameShape(plane, next) && next.image.Some?
    ensures Harmless(screen, rectUpdates, plane, next)
  {
    forall p: Point | OnScreen(screen, p.x, p.y) && Draws(MovedTo(plane, next), p)
      ensures ReportedIn(screen, Reports(screen, rectUpdates, plane, next), p)
    {
      ReportsCover(screen, rectUpdates, plane, next, p);
    }
  }

  /** No grab fails in the run, and no update that it finishes loses anything. */
  ghost predicate Calm(s: State, actions: seq<Action>) {
    actions == [] ||
    var t := Run(s, actions[..|actions| - 1]);
    var a := actions[|actions| - 1];
    && Calm(s, actions[..|actions| - 1])
    && !a.FailGrab?
    && (a.ApplyUpdate? && t.update.Some? ==> NothingLost(t, t.update.value))
  }

  lemma StepKeepsNoneStale(s: State, a: Action)
    requires NoneStale(s) && Enabled(s, a) && !a.FailGrab?
    requires a.ApplyUpdate? ==> NothingLost(s, s.update.value)
    ensures NoneStale(Step(s, a))
  {
    forall p | Visible(s, p)
      ensures p !in Step(s, a).stale
    {
      assert p !in s.stale;
      if a.ApplyUpdate? {
        assert !Lost(s, s.update.value, p);
      }
    }
  }

  lemma {:induction false} CalmStaysNoneStale(s: State, actions: seq<Action>)
    requires NoneStale(s) && Calm(s, actions)
    ensures NoneStale(Run(s, actions))
  {
    if actions != [] {
      var t := Run(s, actions[..|actions| - 1]);
      CalmStaysNoneStale(s, actions[..|actions| - 1]);
      if Enabled(t, actions[|actions| - 1]) {
        StepKeepsNoneStale(t, actions[|actions| - 1]);
      }
    }
  }

  /** No ghost: whatever is written, reported and grabbed, and however the cursor moves and changes, as
      long as no grab fails and no update loses damage, a grab that completes after all reports leaves
      the framebuffer with the cursor at its present position and nowhere else. */
  lemma NoGhost(s: State, actions: seq<Action>, numRects: int, grab: seq<Action>)
    requires Mirrored(s) && NoneStale(s) && s.softCursor && numRects >= 1 && Calm(s, actions)
    requires var t := Run(s, actions); t.unmarked == iset{} && t.owed == [] && t.update.None? && t.grab.Idle?
    requires forall i :: 0 <= i < |grab| ==> GrabStep(grab[i])
    requires Run(Step(Run(s, actions), StartGrab(numRects)), grab).grab.Idle?
    ensures var t, u := Run(s, actions), Run(Step(Run(s, actions), StartGrab(numRects)), grab);
      forall p :: Visible(t, p) ==> u.client(p) == Composed(t.fb, Target(t.plane), p)
  {
    var t := Run(s, actions);
    RunKeepsMirrored(s, actions);
    CalmStaysNoneStale(s, actions);
    RunKeepsConfiguration(s, actions);
    GrabSynchronises(t, numRects, grab);
    GrabKeepsPicture(Step(t, StartGrab(numRects)), grab);
  }

  /** A cursor is shown, and an update under way only moves it. */
  ghost predicate Moving(s: State, shape: Plane) {
    && shape.image.Some? && SameShape(shape, s.plane)
    && (s.update.Some? ==> SameShape(shape, s.update.value))
  }

  /** An action that at most moves the cursor and fails no grab. */
  ghost predicate OnlyMoves(a: Action, shape: Plane) {
    !a.FailGrab? && (a.UpdateCursor? ==> SameShape(shape, a.next))
  }

  lemma StepKeepsMoving(s: State, a: Action, shape: Plane)
    requires Moving(s, shape) && Enabled(s, a) && OnlyMoves(a, shape)
    ensures Moving(Step(s, a), shape)
  {
  }

  /** Moving the cursor any number of times, whatever else happens but a failing grab, is calm. */
  lemma {:induction false} MovingIsCalm(s: State, actions: seq<Action>, shape: Plane)
    requires Mirrored(s) && s.softCursor && Moving(s, shape)
    requires forall i :: 0 <= i < |actions| ==> OnlyMoves(actions[i], shape)
    ensures Calm(s, actions) && Moving(Run(s, actions), shape)
  {
    if actions != [] {
      var stem, a := actions[..|actions| - 1], actions[|actions| - 1];
      assert OnlyMoves(a, shape);
      MovingIsCalm(s, stem, shape);
      var t := Run(s, stem);
      if Enabled(t, a) {
        StepKeepsMoving(t, a, shape);
      }
      if a.ApplyUpdate? && t.update.Some? {
        RunKeepsMirrored(s, stem);
        RunKeepsConfiguration(s, stem);
        MovingIsHarmless(t.screen, t.rectUpdates, t.plane, t.update.value);
        HarmlessLosesNothing(t, t.update.value);
      }
    }
  }

  /** Moving a cursor any number of times leaves no ghost: after every report a completed grab shows it at
      its present position and nowhere else. */
  lemma MovingLeavesNoGhost(s: State, actions: seq<Action>, shape: Plane, numRects: int, grab: seq<Action>)
    requires Mirrored(s) && NoneStale(s) && s.softCursor && Moving(s, shape) && numRects >= 1
    requires forall i :: 0 <= i < |actions| ==> OnlyMoves(actions[i], shape)
    requires var t := Run(s, actions); t.unmarked == iset{} && t.owed == [] && t.update.None? && t.grab.Idle?
    requires forall i :: 0 <= i < |grab| ==> GrabStep(grab[i])
    requires Run(Step(Run(s, actions), StartGrab(numRects)), grab).grab.Idle?
    ensures var t, u := Run(s, actions), Run(Step(Run(s, actions), StartGrab(numRects)), grab);
      forall p :: Visible(t, p) ==> u.client(p) == Composed(t.fb, Target(t.plane), p)
  {
    MovingIsCalm(s, actions, shape);
    NoGhost(s, actions, numRects, grab);
  }

  lemma {:induction false} RunKeepsConfiguration(s: State, actions: seq<Action>)
    ensures var t := Run(s, actions);
      t.softCursor == s.softCursor && t.screen == s.screen && t.rectUpdates == s.rectUpdates
  {
    if actions != [] {
      var stem := actions[..|actions| - 1];
      RunKeepsConfiguration(s, stem);
      if Enabled(Run(s, stem), actions[|actions| - 1]) {
        StepKeepsConfiguration(Run(s, stem), actions[|actions| - 1]);
      }
    }
  }

  lemma StepKeepsConfiguration(s: State, a: Action)
    requires Enabled(s, a)
    ensures var t := Step(s, a);
      t.softCursor == s.softCursor && t.screen == s.screen && t.rectUpdates == s.rectUpdates
  {
  }

  lemma {:induction false} GrabKeepsPicture(s: State, actions: seq<Action>)
    requires forall i :: 0 <= i < |actions| ==> GrabStep(actions[i])
    ensures var t := Run(s, actions);
      t.fb == s.fb && t.plane == s.plane && t.softCursor == s.softCursor && t.screen == s.screen
  {
    if actions != [] {
      assert GrabStep(actions[|actions| - 1]);
      GrabKeepsPicture(s, actions[..|actions| - 1]);
    }
  }
}
