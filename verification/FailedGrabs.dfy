/** What a grab that fails after its snapshot leaves behind, however many grabs succeed later. */
module FailedGrabs {
  import opened Wrappers
  import opened Rects
  import opened DirtyRects
  import opened Blend
  import opened CursorPlane
  import opened Mirror

  // ---- A pixel outside all that is recorded stays as it is ----

  /** Nothing recorded or being copied reaches out of `box`, and the cursor rests elsewhere. */
  ghost predicate Apart(s: State, box: Rect, p: Point) {
    && Encloses(box, s.dirts)
    && (!s.grab.Idle? ==> Encloses(box, s.grab.rects))
    && !Inside(box, p.x, p.y) && !Draws(s.cursor, p)
    && s.update.None? && s.owed == []
  }

  /** No report reaches out of `box`, `p` is not written, and the cursor is not updated. */
  ghost predicate Spares(screen: Framebuffer, a: Action, box: Rect, p: Point) {
    match a
    case Write(region, _) => p !in region
    case Mark(rect) => Within(Sanitized(screen, rect), box)
    case UpdateCursor(_) => false
    case _ => true
  }

  ghost predicate AllSpare(screen: Framebuffer, actions: seq<Action>, box: Rect, p: Point) {
    forall i :: 0 <= i < |actions| ==> Spares(screen, actions[i], box, p)
  }

  ghost predicate SamePixel(s: State, t: State, p: Point) {
    && t.client(p) == s.client(p) && t.fb(p) == s.fb(p)
    && t.plane == s.plane && t.cursor == s.cursor && t.screen == s.screen && t.softCursor == s.softCursor
  }

  lemma OutsideBox(rs: seq<Rect>, box: Rect, p: Point)
    requires Encloses(box, rs) && !Inside(box, p.x, p.y)
    ensures !Listed(rs, p)
  {
  }

  lemma StepSpares(s: State, a: Action, box: Rect, p: Point)
    requires Apart(s, box, p) && Enabled(s, a) && Spares(s.screen, a, box, p)
    ensures Apart(Step(s, a), box, p) && SamePixel(s, Step(s, a), p)
  {
    match a
    case Mark(rect) => MarkedCovers(s.dirts, Sanitized(s.screen, rect));
    case StartGrab(numRects) => TakenCovers(s.dirts, numRects);
    case CopyPixel(q) => OutsideBox(s.grab.rects, box, p);
    case _ =>
  }

  /** Through any run whose reports stay in a box, a pixel outside it that is not written nor under the
      cursor keeps its value, however many grabs there are: merging and collapsing never reach it. */
  lemma {:induction false} SparedPixelStays(s: State, actions: seq<Action>, box: Rect, p: Point)
    requires Apart(s, box, p) && AllSpare(s.screen, actions, box, p)
    ensures Apart(Run(s, actions), box, p) && SamePixel(s, Run(s, actions), p)
  {
    if actions != [] {
      var stem := actions[..|actions| - 1];
      var a := actions[|actions| - 1];
      assert a == actions[|actions| - 1];
      SparedPixelStays(s, stem, box, p);
      if Enabled(Run(s, stem), a) {
        StepSpares(Run(s, stem), a, box, p);
      }
    }
  }

  // ---- A grab that fails part of the way ----

  predicate CopyOnly(actions: seq<Action>) {
    forall i :: 0 <= i < |actions| ==> actions[i].CopyPixel?
  }

  /** `t` is `s` with some listed pixels copied. */
  ghost predicate PartlyCopied(s: State, t: State)
    requires s.grab.Copying?
  {
    && t == s.(client := t.client, grab := t.grab)
    && t.grab.Copying? && t.grab.rects == s.grab.rects
    && forall p :: t.client(p) == if p in t.grab.copied then s.fb(p) else s.client(p)
  }

  lemma {:induction false} CopyingRun(s: State, actions: seq<Action>)
    requires s.grab.Copying? && s.grab.copied == iset{} && CopyOnly(actions)
    ensures PartlyCopied(s, Run(s, actions))
  {
    if actions != [] {
      var stem := actions[..|actions| - 1];
      assert actions[|actions| - 1].CopyPixel?;
      CopyingRun(s, stem);
    }
  }

  /** The state when a grab started in `s` fails after some copying. */
  ghost function Failed(s: State, numRects: int, copies: seq<Action>): State
    requires Enabled(s, StartGrab(numRects)) && CopyOnly(copies)
  {
    CopyingRun(Step(s, StartGrab(numRects)), copies);
    Step(Run(Step(s, StartGrab(numRects)), copies), FailGrab)
  }

  ghost function Copied(s: State, numRects: int, copies: seq<Action>): iset<Point>
    requires Enabled(s, StartGrab(numRects)) && CopyOnly(copies)
  {
    CopyingRun(Step(s, StartGrab(numRects)), copies);
    Run(Step(s, StartGrab(numRects)), copies).grab.copied
  }

  /** After the failure, through any later run with no report reaching it, a pixel that is neither
      written nor under the cursor is the framebuffer's if it had been copied, and what it was before
      the grab if not: the grabs that succeed later never repair it. */
  lemma FailedGrabLoses(s: State, numRects: int, copies: seq<Action>, later: seq<Action>, box: Rect, p: Point)
    requires Enabled(s, StartGrab(numRects)) && CopyOnly(copies)
    requires s.update.None? && s.owed == [] && !Draws(s.cursor, p)
    requires !Inside(box, p.x, p.y) && AllSpare(s.screen, later, box, p)
    ensures var u := Run(Failed(s, numRects, copies), later);
      && u.client(p) == (if p in Copied(s, numRects, copies) then s.fb(p) else s.client(p))
      && u.fb(p) == s.fb(p)
  {
    CopyingRun(Step(s, StartGrab(numRects)), copies);
    SparedPixelStays(Failed(s, numRects, copies), later, box, p);
  }

  /** All pixels that are not under the cursor agree with the framebuffer. */
  ghost predicate ShowsFramebuffer(s: State) {
    forall p :: Visible(s, p) && !Draws(s.cursor, p) ==> s.client(p) == s.fb(p)
  }

  predicate GrabbingOnly(actions: seq<Action>) {
    forall i :: 0 <= i < |actions| ==> !actions[i].Write? && !actions[i].Mark? && !actions[i].UpdateCursor?
  }

  /** With nothing written or reported later, whatever grabs follow, the client shows the framebuffer
      exactly when it already did at every pixel that had not been copied. */
  lemma FailedGrabRepairsIff(s: State, numRects: int, copies: seq<Action>, later: seq<Action>)
    requires Enabled(s, StartGrab(numRects)) && CopyOnly(copies) && s.update.None? && s.owed == []
    requires GrabbingOnly(later)
    ensures ShowsFramebuffer(Run(Failed(s, numRects, copies), later)) <==>
      forall p :: Visible(s, p) && !Draws(s.cursor, p) && p !in Copied(s, numRects, copies) ==> s.client(p) == s.fb(p)
  {
    var u := Run(Failed(s, numRects, copies), later);
    var nowhere := Rect(0, 0, 0, 0);
    forall p | !Draws(s.cursor, p)
      ensures u.client(p) == (if p in Copied(s, numRects, copies) then s.fb(p) else s.client(p)) && u.fb(p) == s.fb(p)
    {
      assert AllSpare(s.screen, later, nowhere, p);
      FailedGrabLoses(s, numRects, copies, later, nowhere, p);
    }
    CursorStays(s, numRects, copies, later);
    if ShowsFramebuffer(u) {
      forall p | Visible(s, p) && !Draws(s.cursor, p) && p !in Copied(s, numRects, copies)
        ensures s.client(p) == s.fb(p)
      {
        assert u.client(p) == u.fb(p);
      }
    }
  }

  lemma CursorStays(s: State, numRects: int, copies: seq<Action>, later: seq<Action>)
    requires Enabled(s, StartGrab(numRects)) && CopyOnly(copies) && s.update.None? && s.owed == []
    requires GrabbingOnly(later)
    ensures var u := Run(Failed(s, numRects, copies), later); u.cursor == s.cursor && u.screen == s.screen
  {
    CopyingRun(Step(s, StartGrab(numRects)), copies);
    NoUpdateRun(Failed(s, numRects, copies), later);
  }

  lemma {:induction false} NoUpdateRun(s: State, actions: seq<Action>)
    requires s.update.None? && GrabbingOnly(actions)
    ensures var t := Run(s, actions); t.update.None? && t.cursor == s.cursor && t.screen == s.screen
  {
    if actions != [] {
      var a := actions[|actions| - 1];
      assert a == actions[|actions| - 1] && !a.UpdateCursor?;
      NoUpdateRun(s, actions[..|actions| - 1]);
    }
  }

  /** A whole grab when nothing is recorded and the client takes cursor events. */
  function EmptyGrab(): seq<Action> {
    [StartGrab(1)] + [EndCopy]
  }

  lemma EmptyGrabRun(s: State)
    requires s.grab.Idle? && s.dirts == [] && !s.softCursor
    ensures Run(s, EmptyGrab()) == s
  {
    RunFirst(s, StartGrab(1));
    RunSplits(s, [StartGrab(1)], [EndCopy]);
    RunFirst(Step(s, StartGrab(1)), EndCopy);
  }

  /** Everything is reported, so the next grab would bring the client up to date; but it fails at once,
      and the one after it succeeds and does not. */
  ghost predicate Loses(s: State) {
    && Mirrored(s) && AllReported(s) && !InSync(s)
    && var u := Run(Failed(s, 1, []), EmptyGrab()); u.grab.Idle? && !InSync(u)
  }

  /** A white screen recorded in full, and a client that is still black. */
  lemma FailedGrabCanLose()
    ensures exists s :: Loses(s)
  {
    var black, white: Image := (_: Point) => ZERO, (_: Point) => Word(255, 255, 255, 255);
    var hidden: Plane := Plane(0, 0, 0, 0, None);
    var screen: Framebuffer := Framebuffer(1, 64, 64, 0);
    var s := State(screen, false, true, white, black, hidden, Target(hidden), None, [Full(screen)], iset{}, [],
                   iset{}, iset{}, Idle);
    forall p
      ensures Faithful(s, p)
    {
      if Visible(s, p) {
        assert Inside(s.dirts[0], p.x, p.y);
      }
    }
    var p := Point(0, 0);
    assert Visible(s, p) && s.client(p) != Ideal(s, p);
    EmptyGrabRun(Failed(s, 1, []));
    assert Failed(s, 1, []).client == s.client;
    assert !InSync(Failed(s, 1, []));
    assert Loses(s);
  }
}
