/** What holds over every run of the protocol, whatever the interleaving. */
module ProtocolRuns {
  import opened Wrappers
  import opened Rects
  import opened DirtyRects
  import opened Events
  import opened PainterModel
  import opened Protocol

  // ---- The invariant ----

  ghost predicate Settled(s: System) {
    !s.alive ==> s.p.scanout.None? && s.p.vblank.None?
  }

  ghost predicate Invariant(s: System) {
    && DirtsSafe(s)
    && (forall x :: RefConserved(s, x))
    && (forall v :: VblankConserved(s, v))
    && VblankHeldForDamage(s.p)
    && QueueServed(s.p)
    && HandshakeHonest(s.p, s.h)
    && Settled(s)
  }

  lemma StartInvariant()
    ensures Invariant(START)
  {
  }

  lemma StepKeepsSettled(s: System, a: Action)
    requires Settled(s) && Enabled(s, a)
    ensures Settled(Step(s, a))
  {
  }

  lemma StepKeepsInvariant(s: System, a: Action)
    requires Invariant(s) && Enabled(s, a)
    ensures Invariant(Step(s, a))
  {
    var t := Step(s, a);
    StepKeepsDirtsSafe(s, a);
    forall x
      ensures RefConserved(t, x)
    {
      StepKeepsRef(s, a, x);
    }
    forall v
      ensures VblankConserved(t, v)
    {
      StepKeepsVblank(s, a, v);
    }
    StepKeepsHeldForDamage(s, a);
    StepKeepsServed(s, a);
    StepKeepsHandshake(s, a);
    StepKeepsSettled(s, a);
  }

  lemma {:induction false} RunKeepsInvariant(s: System, actions: seq<Action>)
    requires Invariant(s)
    ensures Invariant(Run(s, actions))
  {
    if actions != [] {
      var stem := actions[..|actions| - 1];
      var a := actions[|actions| - 1];
      RunKeepsInvariant(s, stem);
      if Enabled(Run(s, stem), a) {
        StepKeepsInvariant(Run(s, stem), a);
      }
    }
  }

  /** In every reachable state a framebuffer being copied is referenced. */
  lemma CopiedIsNeverReleased(actions: seq<Action>, i: nat)
    requires var s := Run(START, actions); i < |s.ops| && s.ops[i].Grabbing?
    ensures var s := Run(START, actions); s.refs[s.ops[i].fb] > 0
  {
    var s := Run(START, actions);
    StartInvariant();
    RunKeepsInvariant(START, actions);
    HeldIsReferenced(s, i, s.ops[i].fb);
  }

  /** A vblank event submitted once is completed at most once; and if it is not completed, either
      the painter holds it, connected and with damage to grab, or a grab in flight has it. */
  lemma VblankCompletedOnce(actions: seq<Action>, v: Vblank)
    requires Count(Run(START, actions).submitted, v) == 1
    ensures var s := Run(START, actions);
      && Count(s.p.completed, v) <= 1
      && (Count(s.p.completed, v) == 0 ==>
            || (s.p.crtc == Some(v.crtc) && s.p.vblank == Some(v.event) && s.p.connected && s.p.dirts != [])
            || Sum(HoldsOf(v), s.ops) == 1)
  {
    var s := Run(START, actions);
    StartInvariant();
    RunKeepsInvariant(START, actions);
    assert VblankConserved(s, v);
    SentCount(s.p.crtc, s.p.vblank, v);
  }

  lemma SentCount(crtc: Option<nat>, vblank: Option<nat>, v: Vblank)
    ensures Count(Sent(crtc, vblank), v) == if crtc == Some(v.crtc) && vblank == Some(v.event) then 1 else 0
  {
  }

  /** Once the painter is cleaned up and nothing is in flight, every reference it took has been
      put and every vblank event it was given has been completed. */
  lemma NothingLeaks(actions: seq<Action>)
    requires var s := Run(START, actions); !s.alive && s.ops == []
    ensures var s := Run(START, actions);
      && (forall x :: s.refs[x] == 0)
      && (forall v :: Count(s.p.completed, v) == Count(s.submitted, v))
  {
    var s := Run(START, actions);
    StartInvariant();
    RunKeepsInvariant(START, actions);
    forall x
      ensures s.refs[x] == 0
    {
      assert RefConserved(s, x);
    }
    forall v
      ensures Count(s.p.completed, v) == Count(s.submitted, v)
    {
      assert VblankConserved(s, v);
    }
  }

  /** In any run what the client was given, followed by what is pending, says the same as all the
      events taken on since it connected: the same other events in order, each met by the same
      cursor, and the same cursor at the end. Pending events have their retry scheduled and a client
      to go to; without a client there are none. */
  lemma StreamKeepsMeaning(actions: seq<Action>)
    ensures var p := Run(START, actions).p;
      && Replay(p.queue.delivered + p.queue.pending) == Replay(p.queue.accepted)
      && NonCursor(p.queue.delivered + p.queue.pending) == NonCursor(p.queue.accepted)
      && NoTwins(p.queue.pending)
      && (p.queue.pending != [] ==> p.queue.scheduled)
      && (p.queue.scheduled ==> p.filp.Some? && p.connected)
  {
    var q := Run(START, actions).p.queue;
    StartInvariant();
    RunKeepsInvariant(START, actions);
    SameReplaySameEvents(q.delivered + q.pending, q.accepted);
  }

  // ---- A promise of pixels is kept ----

  lemma {:induction false} DamageWaits(s: System, actions: seq<Action>)
    requires DirtsSafe(s) && s.p.dirts != []
    requires forall i :: 0 <= i < |actions| ==> !actions[i].GrabStart?
    ensures DirtsSafe(Run(s, actions)) && Run(s, actions).p.dirts != []
  {
    if actions != [] {
      var stem := actions[..|actions| - 1];
      var a := actions[|actions| - 1];
      assert a == actions[|actions| - 1] && !a.GrabStart?;
      DamageWaits(s, stem);
      var t := Run(s, stem);
      if Enabled(t, a) {
        StepKeepsDamage(t, a);
      }
    }
  }

  lemma StepKeepsDamage(s: System, a: Action)
    requires DirtsSafe(s) && s.p.dirts != [] && Enabled(s, a) && !a.GrabStart?
    ensures DirtsSafe(Step(s, a)) && Step(s, a).p.dirts != []
  {
    StepKeepsDirtsSafe(s, a);
    if ByCall(a) {
      StepByCall(s, a);
      if CallOf(s, a).Some? {
        CallKeepsDirts(s.p, s.console, CallOf(s, a).value);
      }
    }
  }

  lemma {:induction false} RunAppend(s: System, a: seq<Action>, b: seq<Action>)
    ensures Run(s, a + b) == Run(Run(s, a), b)
  {
    if b == [] {
      assert a + b == a;
    } else {
      var n := |b| - 1;
      assert (a + b)[..|a| + n] == a + b[..n];
      RunAppend(s, a, b[..n]);
    }
  }

  /** One more action on a run, if it is enabled. */
  lemma RunMore(s: System, actions: seq<Action>, a: Action)
    ensures var t := Run(s, actions);
      Run(s, actions + [a]) == if Enabled(t, a) then Step(t, a) else t
  {
    assert (actions + [a])[..|actions|] == actions;
  }

  lemma RunOne(s: System, a: Action)
    ensures Run(s, [a]) == if Enabled(s, a) then Step(s, a) else s
  {
    assert [] + [a] == [a];
    RunMore(s, [], a);
  }

  /** The call answers a request with 1, or sends UPDATE_READY. */
  predicate Promises(p: PainterState, call: Call) {
    (call.Request? && RequestUpdate(p).1 == 1) || (call.FlushReady? && ReadyDue(p))
  }

  /** After a step that promises an update, a locked call or the last step of a flush, the next grab
      that succeeds reports at least one rectangle and no more than it was asked for. */
  lemma PromisedGrabReports(s: System, a: Action, actions: seq<Action>, numRects: int)
    requires DirtsSafe(s) && Enabled(s, a) && ByCall(a)
    requires CallOf(s, a).Some? && Promises(s.p, CallOf(s, a).value)
    requires forall i :: 0 <= i < |actions| ==> !actions[i].GrabStart?
    ensures var (_, grab) := TakeSnapshot(Run(Step(s, a), actions).p, numRects);
      grab.Snapshot? ==> 1 <= |grab.rects| <= numRects
  {
    var t := Step(s, a);
    StepKeepsDamage(s, a);
    DamageWaits(t, actions);
    GrabKeepsDirtsSafe(Run(t, actions).p, numRects);
  }
}
