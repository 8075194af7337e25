/** What a client can count on over runs: after a grab there is nothing to fetch until something is marked,
    events that fit are delivered, and a vblank waits for its grab. */
module ProtocolLaws {
  import opened Wrappers
  import opened Rects
  import opened DirtyRects
  import opened Events
  import opened PainterModel
  import opened Protocol
  import opened ProtocolRuns

  // ---- After a grab ----

  predicate Marking(a: Action) {
    a.Locked? && a.call.Mark?
  }

  lemma StepKeepsClean(s: System, a: Action)
    requires s.p.dirts == [] && Enabled(s, a) && !Marking(a)
    ensures Step(s, a).p.dirts == []
  {
    if a.GrabStart? {
      SnapshotTakesAll(s.p, a.numRects);
    } else if ByCall(a) {
      StepByCall(s, a);
      if CallOf(s, a).Some? {
        OtherCallsKeepDirts(s.p, s.console, CallOf(s, a).value);
      }
    }
  }

  lemma OtherCallsKeepDirts(p: PainterState, console: int, call: Call)
    requires |p.dirts| <= MAX_DIRTS && !call.Mark?
    ensures Apply(p, console, call).dirts == p.dirts
  {
  }

  lemma {:induction false} CleanStays(s: System, actions: seq<Action>)
    requires s.p.dirts == []
    requires forall i :: 0 <= i < |actions| ==> !Marking(actions[i])
    ensures Run(s, actions).p.dirts == []
  {
    if actions != [] {
      var stem, a := actions[..|actions| - 1], actions[|actions| - 1];
      assert !Marking(a);
      CleanStays(s, stem);
      if Enabled(Run(s, stem), a) {
        StepKeepsClean(Run(s, stem), a);
      }
    }
  }

  /** After a grab of a painter with a scanout buffer, through any run that marks nothing, a request is
      not answered: it becomes outstanding, or is ignored because one is; and the next grab reports nothing. */
  lemma GrabLeavesNothing(s: System, numRects: int, actions: seq<Action>)
    requires Enabled(s, GrabStart(numRects)) && numRects >= 1 && s.p.scanout.Some?
    requires forall i :: 0 <= i < |actions| ==> !Marking(actions[i])
    ensures var t := Run(Step(s, GrabStart(numRects)), actions);
      && t.p.dirts == []
      && (Enabled(t, Locked(Request)) ==>
            var u := Step(t, Locked(Request));
            && u.p.updateRequested && u.h.answered == t.h.answered
            && u.h.ignored == t.h.ignored + if t.p.updateRequested then 1 else 0)
      && (TakeSnapshot(t.p, numRects).1.Snapshot? ==> TakeSnapshot(t.p, numRects).1.rects == [])
  {
    SnapshotTakesAll(s.p, numRects);
    CleanStays(Step(s, GrabStart(numRects)), actions);
    SnapshotTakesAll(Run(Step(s, GrabStart(numRects)), actions).p, numRects);
  }

  // ---- Events that fit ----

  /** The retry delivers the first pending event if it fits, and all of them if they do. */
  lemma RetryDelivers(s: System)
    requires Enabled(s, Locked(RunWork)) && s.p.queue.scheduled && s.p.queue.pending != []
    ensures var q, r := s.p.queue, Step(s, Locked(RunWork)).p.queue;
      && (Length(q.pending[0]) <= q.space ==> q.delivered + [q.pending[0]] <= r.delivered)
      && (TotalLength(q.pending) <= q.space ==>
            r.delivered == q.delivered + q.pending && r.pending == [] && !r.scheduled)
  {
    if Length(s.p.queue.pending[0]) <= s.p.queue.space {
      FlushDeliversHead(s.p.queue);
    }
    if TotalLength(s.p.queue.pending) <= s.p.queue.space {
      FlushDrains(s.p.queue);
      FlushDelivers(s.p.queue);
    }
  }

  lemma ReadingStep(s: System, bytes: nat)
    requires Enabled(s, Locked(ClientReads(bytes)))
    ensures Step(s, Locked(ClientReads(bytes))).p.queue == s.p.queue.(space := s.p.queue.space + bytes)
    ensures Enabled(Step(s, Locked(ClientReads(bytes))), Locked(RunWork))
  {
  }

  lemma IdleRetry(s: System)
    requires Enabled(s, Locked(RunWork)) && s.p.queue.pending == []
    ensures Step(s, Locked(RunWork)).p.queue.pending == []
    ensures Step(s, Locked(RunWork)).p.queue.delivered == s.p.queue.delivered
  {
    FlushDrains(s.p.queue);
  }

  /** In every run: once the client has read enough, the retry hands over all that is pending. */
  lemma ReadingDrains(before: seq<Action>, bytes: nat)
    requires var s := Run(START, before);
      s.alive && TotalLength(s.p.queue.pending) <= s.p.queue.space + bytes
    ensures var s := Run(START, before);
      var t := Run(s, [Locked(ClientReads(bytes))] + [Locked(RunWork)]);
      t.p.queue.pending == [] && t.p.queue.delivered == s.p.queue.delivered + s.p.queue.pending
  {
    var s := Run(START, before);
    StartInvariant();
    RunKeepsInvariant(START, before);
    RunOne(s, Locked(ClientReads(bytes)));
    RunMore(s, [Locked(ClientReads(bytes))], Locked(RunWork));
    hide Run, Step, TotalLength;
    ReadingStep(s, bytes);
    var t := Step(s, Locked(ClientReads(bytes)));
    if s.p.queue.pending != [] {
      RetryDelivers(t);
    } else {
      IdleRetry(t);
    }
  }

  // ---- A vblank waits for its grab ----

  /** The vblank events that an action completes, in order. */
  function Completes(s: System, a: Action): seq<Vblank>
    requires Enabled(s, a)
  {
    match a
    case GrabComplete(i) => Sent(s.ops[i].crtc, s.ops[i].vblank)
    case DisconnectClient(file) => if s.p.filp == Some(file) then Sent(s.p.crtc, s.p.vblank) else []
    case CleanUp => Sent(s.p.crtc, s.p.vblank)
    case _ =>
      if ByCall(a) && CallOf(s, a).Some? && CallOf(s, a).value.SubmitVblank? then
        var call := CallOf(s, a).value;
        Sent(s.p.crtc, s.p.vblank) + if s.p.connected && s.p.dirts != [] then [] else Sent(call.crtc, call.vblank)
      else []
  }

  lemma StepCompletes(s: System, a: Action)
    requires Enabled(s, a)
    ensures Step(s, a).p.completed == s.p.completed + Completes(s, a)
  {
    hide Taken, Get, Put, Without;
    if ByCall(a) {
      StepByCall(s, a);
      if CallOf(s, a).Some? && !CallOf(s, a).value.SubmitVblank? {
        OtherCallsKeepVblanks(s.p, s.console, CallOf(s, a).value);
      }
    }
  }

  predicate InGrab(op: Op, v: Vblank) {
    op.Grabbing? && Sent(op.crtc, op.vblank) == [v]
  }

  /** The painter holds it, or a grab in flight has it. */
  predicate Waits(s: System, v: Vblank) {
    Sent(s.p.crtc, s.p.vblank) == [v] || exists i :: 0 <= i < |s.ops| && InGrab(s.ops[i], v)
  }

  lemma HeldStays(s: System, a: Action, v: Vblank)
    requires Enabled(s, a) && Sent(s.p.crtc, s.p.vblank) == [v] && v !in Completes(s, a)
    ensures Waits(Step(s, a), v)
  {
    var t := Step(s, a);
    if ByCall(a) {
      StepByCall(s, a);
      if CallOf(s, a).Some? {
        OtherCallsKeepVblanks(s.p, s.console, CallOf(s, a).value);
      }
    } else if a.GrabStart? {
      SnapshotTakesAll(s.p, a.numRects);
      if TakeSnapshot(s.p, a.numRects).1.Snapshot? {
        assert InGrab(t.ops[|s.ops|], v);
      }
    }
  }

  lemma GrabKeepsIt(s: System, a: Action, v: Vblank, i: nat)
    requires Enabled(s, a) && i < |s.ops| && InGrab(s.ops[i], v) && v !in Completes(s, a)
    ensures Waits(Step(s, a), v)
  {
    var t := Step(s, a);
    if ByCall(a) {
      StepByCall(s, a);
      assert InGrab(t.ops[i], v);
    } else if a.Release? {
      assert InGrab(t.ops[if i < a.i then i else i - 1], v);
    } else {
      assert InGrab(t.ops[i], v);
    }
  }

  lemma StepKeepsWaiting(s: System, a: Action, v: Vblank)
    requires Enabled(s, a) && Waits(s, v) && v !in Completes(s, a)
    ensures Waits(Step(s, a), v)
  {
    if Sent(s.p.crtc, s.p.vblank) == [v] {
      HeldStays(s, a, v);
    } else {
      var i :| 0 <= i < |s.ops| && InGrab(s.ops[i], v);
      GrabKeepsIt(s, a, v, i);
    }
  }

  /** No action of the run completes it. */
  predicate Spared(s: System, actions: seq<Action>, v: Vblank) {
    actions == [] ||
    var t, a := Run(s, actions[..|actions| - 1]), actions[|actions| - 1];
    Spared(s, actions[..|actions| - 1], v) && (Enabled(t, a) ==> v !in Completes(t, a))
  }

  lemma {:induction false} RunKeepsWaiting(s: System, actions: seq<Action>, v: Vblank)
    requires Waits(s, v) && Spared(s, actions, v)
    ensures Waits(Run(s, actions), v)
  {
    if actions != [] {
      var stem, a := actions[..|actions| - 1], actions[|actions| - 1];
      RunKeepsWaiting(s, stem, v);
      if Enabled(Run(s, stem), a) {
        StepKeepsWaiting(Run(s, stem), a, v);
      }
    }
  }

  predicate Submits(s: System, a: Action, v: Vblank) {
    Enabled(s, a) && ByCall(a) && CallOf(s, a) == Some(SubmitVblank(Some(v.crtc), Some(v.event)))
  }

  /** A vblank submitted to a connected client with damage to grab is not completed then, and waits until the
      grab that takes it completes, or, while no grab has taken it, the next submission, its client's
      disconnect or cleanup completes it: these alone complete vblanks, by `StepCompletes`. */
  lemma VblankWaits(s: System, a: Action, v: Vblank, later: seq<Action>)
    requires Submits(s, a, v) && s.p.connected && s.p.dirts != [] && Spared(Step(s, a), later, v)
    ensures Completes(s, a) == Sent(s.p.crtc, s.p.vblank) && Waits(Run(Step(s, a), later), v)
  {
    StepByCall(s, a);
    VblankHeldIff(s.p, v.crtc, v.event);
    RunKeepsWaiting(Step(s, a), later, v);
  }

  // ---- A whole grab, and the end ----

  lemma GrabMoves(s: System, numRects: int)
    requires Enabled(s, GrabStart(numRects)) && numRects >= 1 && s.p.scanout.Some?
    ensures var k, t := |s.ops|, Step(s, GrabStart(numRects));
      Enabled(t, GrabComplete(k)) && Enabled(Step(t, GrabComplete(k)), Release(k))
      && GrabDone(s, Step(Step(t, GrabComplete(k)), Release(k)))
  {
    var k := |s.ops|;
    hide Taken;
    SnapshotTakesAll(s.p, numRects);
    var t := Step(s, GrabStart(numRects));
    assert Without(t.ops[k := Releasing(s.p.scanout)], k) == s.ops;
  }

  /** `t` is `s` with all damage and the held vblank taken and the vblank completed. */
  predicate GrabDone(s: System, t: System) {
    && t.p == s.p.(dirts := [], crtc := None, vblank := None, completed := s.p.completed + Sent(s.p.crtc, s.p.vblank))
    && t.ops == s.ops && t.refs == s.refs && t.commit == s.commit && t.notifier == s.notifier
  }

  /** A grab that nothing interrupts ends with no operation and no reference more than before; the list is empty
      and the vblank that was held completed. */
  lemma GrabIsRun(s: System, numRects: int)
    requires Enabled(s, GrabStart(numRects)) && numRects >= 1 && s.p.scanout.Some?
    ensures var k := |s.ops|;
      GrabDone(s, Run(s, [GrabStart(numRects)] + [GrabComplete(k)] + [Release(k)]))
  {
    var k := |s.ops|;
    hide Run, Step, GrabDone;
    GrabMoves(s, numRects);
    RunOne(s, GrabStart(numRects));
    RunMore(s, [GrabStart(numRects)], GrabComplete(k));
    RunMore(s, [GrabStart(numRects)] + [GrabComplete(k)], Release(k));
  }

  lemma StepStaysOver(s: System, a: Action)
    requires !s.alive && Enabled(s, a)
    ensures var t := Step(s, a); !t.alive && |t.ops| <= |s.ops| && t.p == s.p.(completed := t.p.completed)
  {
  }

  /** After cleanup nothing new begins: through any run there are no more operations, and the painter only
      completes vblanks that grabs still have. */
  lemma {:induction false} CleanUpIsTheEnd(s: System, actions: seq<Action>)
    requires Enabled(s, CleanUp)
    ensures var u, t := Step(s, CleanUp), Run(Step(s, CleanUp), actions);
      && !t.alive && |t.ops| <= |s.ops| && t.p == u.p.(completed := t.p.completed)
      && u.p.scanout.None? && u.p.vblank.None? && u.p.queue == EMPTY_QUEUE
  {
    if actions != [] {
      var stem := actions[..|actions| - 1];
      CleanUpIsTheEnd(s, stem);
      var t := Run(Step(s, CleanUp), stem);
      if Enabled(t, actions[|actions| - 1]) {
        StepStaysOver(t, actions[|actions| - 1]);
      }
    }
  }
}
