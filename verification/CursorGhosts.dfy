/** When a cursor update can leave a ghost: a wrong pixel of the client's that nobody will report. */
module CursorGhosts {
  import opened Wrappers
  import opened Rects
  import opened DirtyRects
  import opened Blend
  import opened CursorPlane
  import opened Mirror

  /** The client is wrong at `p`, and nothing recorded, owed or under way will put it right. */
  ghost predicate Ghost(s: State, p: Point) {
    && Visible(s, p) && s.client(p) != Ideal(s, p)
    && s.update.None? && s.grab.Idle?
    && !Listed(s.dirts, p) && !Owed(s, p) && p !in s.unmarked
  }

  ghost predicate SameGeometry(a: Plane, b: Plane) {
    a.x == b.x && a.y == b.y && a.w == b.w && a.h == b.h && a.image.Some? == b.image.Some?
  }

  /** An up-to-date client that draws its cursor in software, with the cursor plane laid out as `plane`. */
  ghost predicate Settled(s: State, screen: Framebuffer, rectUpdates: bool, plane: Plane) {
    && Mirrored(s) && InSync(s) && AllReported(s)
    && s.softCursor && s.screen == screen && s.rectUpdates == rectUpdates && SameGeometry(s.plane, plane)
  }

  /** One update, to a state laid out as `next`, and anything else meanwhile but a failing grab. */
  ghost predicate OneUpdate(actions: seq<Action>, next: Plane) {
    && actions != [] && actions[0].UpdateCursor? && SameGeometry(actions[0].next, next)
    && forall i :: 1 <= i < |actions| ==> !actions[i].UpdateCursor? && !actions[i].FailGrab?
  }

  ghost predicate CanGhost(screen: Framebuffer, rectUpdates: bool, plane: Plane, next: Plane) {
    exists s, actions, p ::
      Settled(s, screen, rectUpdates, plane) && OneUpdate(actions, next) && Ghost(Run(s, actions), p)
  }

  lemma GhostBy(screen: Framebuffer, rectUpdates: bool, plane: Plane, next: Plane,
                s: State, actions: seq<Action>, p: Point)
    requires Settled(s, screen, rectUpdates, plane) && OneUpdate(actions, next) && Ghost(Run(s, actions), p)
    ensures CanGhost(screen, rectUpdates, plane, next)
  {
  }

  // ---- A harmless update leaves none ----

  lemma HarmlessByGeometry(screen: Framebuffer, rectUpdates: bool, a: Plane, b: Plane, m: Plane, n: Plane)
    requires SameGeometry(a, b) && SameGeometry(m, n) && Harmless(screen, rectUpdates, a, m)
    ensures Harmless(screen, rectUpdates, b, n)
  {
    forall p: Point | OnScreen(screen, p.x, p.y) && Draws(MovedTo(b, n), p)
      ensures ReportedIn(screen, Reports(screen, rectUpdates, b, n), p)
    {
      assert Draws(MovedTo(a, m), p);
      assert Reports(screen, rectUpdates, b, n) == Reports(screen, rectUpdates, a, m);
    }
    if n.image.None? {
      forall p: Point | OnScreen(screen, p.x, p.y)
        ensures !Draws(Target(b), p)
      {
        assert !Draws(Target(a), p);
      }
    }
  }

  /** Before the update is finished it is harmless; after it, nothing is stale. */
  ghost predicate Harbored(s: State) {
    && Mirrored(s) && NoneStale(s) && s.softCursor
    && (s.update.Some? ==> Harmless(s.screen, s.rectUpdates, s.plane, s.update.value))
  }

  lemma StepKeepsHarbored(s: State, a: Action)
    requires Harbored(s) && Enabled(s, a) && !a.UpdateCursor? && !a.FailGrab?
    ensures Harbored(Step(s, a))
  {
    StepKeepsMirrored(s, a);
    StepKeepsConfiguration(s, a);
    if a.ApplyUpdate? {
      HarmlessLosesNothing(s, s.update.value);
    }
    StepKeepsNoneStale(s, a);
    if !a.ApplyUpdate? {
      assert Step(s, a).update == s.update && Step(s, a).plane == s.plane;
    }
  }

  lemma {:induction false} RunKeepsHarbored(s: State, actions: seq<Action>)
    requires Harbored(s)
    requires forall i :: 0 <= i < |actions| ==> !actions[i].UpdateCursor? && !actions[i].FailGrab?
    ensures Harbored(Run(s, actions))
  {
    if actions != [] {
      var stem := actions[..|actions| - 1];
      var a := actions[|actions| - 1];
      assert a == actions[|actions| - 1] && !a.UpdateCursor? && !a.FailGrab?;
      RunKeepsHarbored(s, stem);
      if Enabled(Run(s, stem), a) {
        StepKeepsHarbored(Run(s, stem), a);
      }
    }
  }

  lemma HarmlessLeavesNone(s: State, actions: seq<Action>, p: Point, screen: Framebuffer, rectUpdates: bool,
                           plane: Plane, next: Plane)
    requires Settled(s, screen, rectUpdates, plane) && OneUpdate(actions, next)
    requires Harmless(screen, rectUpdates, plane, next)
    ensures !Ghost(Run(s, actions), p)
  {
    var first, rest := actions[0], actions[1..];
    assert actions == [first] + rest;
    RunFirst(s, first);
    RunSplits(s, [first], rest);
    HarmlessByGeometry(screen, rectUpdates, plane, s.plane, next, first.next);
    StepKeepsMirrored(s, first);
    RunKeepsHarbored(Step(s, first), rest);
    assert Faithful(Run(s, actions), p);
  }

  // ---- A harmful one can ----

  const BLACK: Image := (_: Point) => ZERO
  const WHITE: Image := (_: Point) => Word(255, 255, 255, 255)

  function White(plane: Plane): Plane {
    plane.(image := if plane.image.Some? then Some(WHITE) else None)
  }

  /** A black screen with a white cursor, and a client that shows it. */
  ghost function Stage(screen: Framebuffer, rectUpdates: bool, plane: Plane): State {
    var cursor := Target(White(plane));
    State(screen, true, rectUpdates, BLACK, (p: Point) => Composed(BLACK, cursor, p), White(plane), cursor, None,
          [], iset{}, [], iset{}, iset{}, Idle)
  }

  lemma StageSettled(screen: Framebuffer, rectUpdates: bool, plane: Plane)
    ensures Settled(Stage(screen, rectUpdates, plane), screen, rectUpdates, plane)
  {
  }

  lemma WhiteOnBlack(c: Cursor, p: Point)
    requires Draws(c, p) && c.pixels == WHITE
    ensures Composed(BLACK, c, p) != ZERO
  {
    BlendWordExtremes(ZERO, Word(255, 255, 255, 255));
  }

  /** The two steps of an update with nothing in between. */
  ghost function Updated(s: State, next: Plane): State
    requires Enabled(s, UpdateCursor(next))
  {
    Step(Step(s, UpdateCursor(next)), ApplyUpdate)
  }

  lemma UpdatedRun(s: State, next: Plane)
    requires Enabled(s, UpdateCursor(next))
    ensures Run(s, [UpdateCursor(next)] + [ApplyUpdate]) == Updated(s, next)
  {
    RunFirst(s, UpdateCursor(next));
    RunSplits(s, [UpdateCursor(next)], [ApplyUpdate]);
    RunFirst(Step(s, UpdateCursor(next)), ApplyUpdate);
  }

  /** Hiding reports nothing: an up-to-date client stays so exactly when the cursor changed no pixel it
      was drawn on. */
  lemma HidingLeavesSyncIff(s: State, next: Plane)
    requires InSync(s) && s.softCursor && Enabled(s, UpdateCursor(next)) && next.image.None?
    ensures InSync(Updated(s, next)) <==>
      forall p :: Visible(s, p) && Draws(Target(s.plane), p) ==> Composed(s.fb, Target(s.plane), p) == s.fb(p)
  {
    var t := Updated(s, next);
    forall p | Visible(s, p)
      ensures t.client(p) == Composed(s.fb, Target(s.plane), p) && Ideal(t, p) == s.fb(p)
    {
      assert s.client(p) == Ideal(s, p);
    }
    if InSync(t) {
      forall p | Visible(s, p) && Draws(Target(s.plane), p)
        ensures Composed(s.fb, Target(s.plane), p) == s.fb(p)
      {
        assert t.client(p) == Ideal(t, p);
      }
    }
  }

  /** Hiding a cursor that is on the screen, with no grab in between. */
  lemma HidingGhosts(screen: Framebuffer, rectUpdates: bool, plane: Plane, next: Plane, p: Point)
    requires next.image.None? && OnScreen(screen, p.x, p.y) && Draws(Target(plane), p)
    ensures CanGhost(screen, rectUpdates, plane, next)
  {
    var s := Stage(screen, rectUpdates, plane);
    StageSettled(screen, rectUpdates, plane);
    HiddenStays(s, next, p);
    UpdatedRun(s, next);
    GhostBy(screen, rectUpdates, plane, next, s, [UpdateCursor(next)] + [ApplyUpdate], p);
  }

  lemma HiddenStays(s: State, next: Plane, p: Point)
    requires Enabled(s, UpdateCursor(next)) && next.image.None? && s.softCursor && s.grab.Idle?
    requires s.dirts == [] && s.unmarked == iset{} && s.fb == BLACK && InSync(s)
    requires Visible(s, p) && Draws(Target(s.plane), p) && Target(s.plane).pixels == WHITE
    ensures Ghost(Updated(s, next), p)
  {
    WhiteOnBlack(Target(s.plane), p);
    assert s.client(p) == Ideal(s, p);
  }

  // ---- A grab that composes in the middle of an update ----

  lemma {:induction false} RowPoints(y: int, n: nat) returns (points: seq<Point>)
    ensures forall x :: 0 <= x < n ==> Point(x, y) in points
  {
    if n == 0 {
      points := [];
    } else {
      var stem := RowPoints(y, n - 1);
      points := stem + [Point(n - 1, y)];
    }
  }

  ghost predicate Fills(points: seq<Point>, width: int, height: int) {
    forall x, y :: 0 <= x < width && 0 <= y < height ==> Point(x, y) in points
  }

  lemma {:induction false} AllPoints(width: nat, height: nat) returns (points: seq<Point>)
    ensures Fills(points, width, height)
  {
    if height == 0 {
      points := [];
    } else {
      var above := AllPoints(width, height - 1);
      var row := RowPoints(height - 1, width);
      points := above + row;
    }
  }

  function Drawing(points: seq<Point>): seq<Action> {
    if points == [] then [] else Drawing(points[..|points| - 1]) + [DrawPixel(points[|points| - 1])]
  }

  lemma {:induction false} DrawingOnly(points: seq<Point>)
    ensures forall i :: 0 <= i < |Drawing(points)| ==> Drawing(points)[i].DrawPixel?
  {
    if points != [] {
      DrawingOnly(points[..|points| - 1]);
    }
  }

  /** The grab of `s` after drawing some pixels in the middle of an update. */
  ghost predicate Drew(s: State, t: State, points: seq<Point>)
    requires s.grab.Composing?
  {
    && t == s.(client := t.client, grab := t.grab, smudged := t.smudged)
    && t.grab.Composing? && t.grab.rects == s.grab.rects
    && (forall p :: p in points && Draws(s.cursor, p) && Visible(s, p) ==> p in t.grab.drawn)
    && (forall p :: p in t.grab.drawn ==> t.client(p) == Composed(s.fb, s.cursor, p))
  }

  lemma {:induction false} DrawingRun(s: State, points: seq<Point>)
    requires s.grab.Composing? && s.grab.drawn == iset{}
    ensures Drew(s, Run(s, Drawing(points)), points)
  {
    if points != [] {
      var stem, p := points[..|points| - 1], points[|points| - 1];
      DrawingRun(s, stem);
      RunSplits(s, Drawing(stem), [DrawPixel(p)]);
      RunFirst(Run(s, Drawing(stem)), DrawPixel(p));
      assert points == stem + [p];
    }
  }

  function Before(next: Plane): seq<Action> {
    [UpdateCursor(next)] + [StartGrab(1)] + [EndCopy]
  }

  function After(): seq<Action> {
    [EndGrab] + [ApplyUpdate] + [MarkOwed] + [MarkOwed]
  }

  lemma BeforeRun(s: State, screen: Framebuffer, rectUpdates: bool, plane: Plane, next: Plane)
    requires s == Stage(screen, rectUpdates, plane)
    ensures Run(s, Before(next)) ==
      s.(cursor := MovedTo(White(plane), next), update := Some(next), grab := Composing([], iset{}))
  {
    RunFirst(s, UpdateCursor(next));
    RunSplits(s, [UpdateCursor(next)], [StartGrab(1)]);
    RunFirst(Run(s, [UpdateCursor(next)]), StartGrab(1));
    RunSplits(s, [UpdateCursor(next)] + [StartGrab(1)], [EndCopy]);
    RunFirst(Run(s, [UpdateCursor(next)] + [StartGrab(1)]), EndCopy);
  }

  /** A pixel drawn by the old shape at the new place, outside what is reported, stays. */
  lemma AfterRun(s: State, p: Point)
    requires s.update.Some? && s.softCursor && s.grab.Composing? && s.grab.rects == [] && s.owed == [] && s.dirts == []
    requires s.unmarked == iset{} && s.fb == BLACK && SameCursor(s.cursor, MovedTo(s.plane, s.update.value))
    requires forall q :: Draws(s.cursor, q) && Visible(s, q) ==> q in s.grab.drawn
    requires Visible(s, p) && s.client(p) != ZERO
    requires !ReportedIn(s.screen, OwedBy(s, s.update.value), p)
    ensures Ghost(Run(s, After()), p)
  {
    var next := s.update.value;
    RunFirst(s, EndGrab);
    var s1 := Step(s, EndGrab);
    RunSplits(s, [EndGrab], [ApplyUpdate]);
    RunFirst(s1, ApplyUpdate);
    var s2 := Step(s1, ApplyUpdate);
    RunSplits(s, [EndGrab] + [ApplyUpdate], [MarkOwed]);
    RunSplits(s, [EndGrab] + [ApplyUpdate] + [MarkOwed], [MarkOwed]);
    MarkOwedTwice(s2, p);
    if next.image.Some? && Draws(Target(next), p) {
      ReportsCover(s.screen, s.rectUpdates, s.plane, next, p);
    }
  }

  lemma MarkOwedTwice(s: State, p: Point)
    requires s.dirts == [] && |s.owed| <= 2 && !Owed(s, p)
    ensures var t := Run(Run(s, [MarkOwed]), [MarkOwed]);
      && t == s.(dirts := t.dirts, owed := [], stale := t.stale)
      && !Listed(t.dirts, p)
  {
    RunFirst(s, MarkOwed);
    var t := Run(s, [MarkOwed]);
    RunFirst(t, MarkOwed);
    if |s.owed| > 0 {
      assert !Reported(s.screen, s.owed[0], p);
      assert t.dirts == [Sanitized(s.screen, s.owed[0])] && t.owed == s.owed[1..];
      if |s.owed| > 1 {
        assert !Reported(s.screen, s.owed[1], p) && t.owed[0] == s.owed[1];
        assert Step(t, MarkOwed).dirts == [Sanitized(s.screen, s.owed[0]), Sanitized(s.screen, s.owed[1])];
      }
    }
  }

  /** In the middle of the update a grab, with nothing recorded, has drawn the whole cursor. */
  ghost predicate Between(s: State, screen: Framebuffer, rectUpdates: bool, plane: Plane, next: Plane) {
    && s.update == Some(next) && s.softCursor && s.grab.Composing? && s.grab.rects == []
    && s.screen == screen && s.rectUpdates == rectUpdates && s.plane == White(plane)
    && s.owed == [] && s.dirts == [] && s.unmarked == iset{} && s.fb == BLACK
    && s.cursor == MovedTo(White(plane), next)
    && forall q :: Draws(s.cursor, q) && Visible(s, q) ==> q in s.grab.drawn && s.client(q) != ZERO
  }

  lemma BetweenRun(s: State, points: seq<Point>, screen: Framebuffer, rectUpdates: bool, plane: Plane, next: Plane)
    requires s == Stage(screen, rectUpdates, plane) && Fills(points, screen.width, screen.height)
    ensures Between(Run(s, Before(next) + Drawing(points)), screen, rectUpdates, plane, next)
  {
    BeforeRun(s, screen, rectUpdates, plane, next);
    var s1 := Run(s, Before(next));
    DrawingRun(s1, points);
    RunSplits(s, Before(next), Drawing(points));
    forall q | Draws(s1.cursor, q) && OnScreen(screen, q.x, q.y)
      ensures q in points && Composed(BLACK, s1.cursor, q) != ZERO
    {
      assert Point(q.x, q.y) in points;
      WhiteOnBlack(s1.cursor, q);
    }
  }

  lemma ReshapingGhosts(screen: Framebuffer, rectUpdates: bool, plane: Plane, next: Plane, p: Point)
    requires OnScreen(screen, p.x, p.y) && Draws(MovedTo(plane, next), p)
    requires !ReportedIn(screen, Reports(screen, rectUpdates, plane, next), p)
    ensures CanGhost(screen, rectUpdates, plane, next)
  {
    var s := Stage(screen, rectUpdates, plane);
    var points := AllPoints(screen.width, screen.height);
    var middle := Before(next) + Drawing(points);
    StageSettled(screen, rectUpdates, plane);
    BetweenRun(s, points, screen, rectUpdates, plane, next);
    assert Draws(Run(s, middle).cursor, p);
    assert Reports(screen, rectUpdates, White(plane), next) == Reports(screen, rectUpdates, plane, next);
    AfterRun(Run(s, middle), p);
    RunSplits(s, middle, After());
    JustOne(points, next);
    GhostBy(screen, rectUpdates, plane, next, s, middle + After(), p);
  }

  lemma JustOne(points: seq<Point>, next: Plane)
    ensures OneUpdate(Before(next) + Drawing(points) + After(), next)
  {
    DrawingOnly(points);
  }

  /** Whatever the images, and whatever is written, reported and grabbed meanwhile, an update leaves no
      ghost exactly when it shows a cursor, or had none on the screen, and every on-screen pixel of the
      old shape at the new place lies in the rectangles it reports. */
  lemma GhostIff(screen: Framebuffer, rectUpdates: bool, plane: Plane, next: Plane)
    ensures !CanGhost(screen, rectUpdates, plane, next) <==> Harmless(screen, rectUpdates, plane, next)
  {
    if Harmless(screen, rectUpdates, plane, next) {
      forall s, actions, p | Settled(s, screen, rectUpdates, plane) && OneUpdate(actions, next)
        ensures !Ghost(Run(s, actions), p)
      {
        HarmlessLeavesNone(s, actions, p, screen, rectUpdates, plane, next);
      }
    } else if next.image.None? && !OffScreen(screen, Target(plane)) {
      var p: Point :| OnScreen(screen, p.x, p.y) && Draws(Target(plane), p);
      HidingGhosts(screen, rectUpdates, plane, next, p);
    } else {
      var p: Point :| OnScreen(screen, p.x, p.y) && Draws(MovedTo(plane, next), p)
        && !ReportedIn(screen, Reports(screen, rectUpdates, plane, next), p);
      ReshapingGhosts(screen, rectUpdates, plane, next, p);
    }
  }

  // ---- Two everyday updates ----

  const DESKTOP: Framebuffer := Framebuffer(1, 640, 480, 0)

  function Arrow(): Plane {
    Plane(100, 100, 64, 64, Some(WHITE))
  }

  /** An arrow that is hidden where it is. */
  lemma HiddenCursorCanStay()
    ensures CanGhost(DESKTOP, true, Arrow(), Arrow().(image := None))
  {
    GhostIff(DESKTOP, true, Arrow(), Arrow().(image := None));
    assert Draws(Target(Arrow()), Point(100, 100));
  }

  function LargeArrow(): Plane {
    Plane(100, 100, 128, 128, Some(WHITE))
  }

  function MovedArrow(): Plane {
    Plane(300, 100, 64, 64, Some(WHITE))
  }

  /** A large arrow that becomes a small one further right: a grab in between draws the large one there. */
  lemma ReshapedCursorCanStay()
    ensures CanGhost(DESKTOP, true, LargeArrow(), MovedArrow())
  {
    var p := Point(400, 100);
    GhostIff(DESKTOP, true, LargeArrow(), MovedArrow());
    assert Draws(MovedTo(LargeArrow(), MovedArrow()), p);
    ArrowReports(p);
  }

  lemma ArrowReports(p: Point)
    requires p == Point(400, 100)
    ensures !ReportedIn(DESKTOP, Reports(DESKTOP, true, LargeArrow(), MovedArrow()), p)
  {
    assert RectOf(LargeArrow()) == Rect(100, 100, 228, 228) && RectOf(MovedArrow()) == Rect(300, 100, 364, 164);
    assert !Reported(DESKTOP, RectOf(LargeArrow()), p) && !Reported(DESKTOP, RectOf(MovedArrow()), p);
  }
}
