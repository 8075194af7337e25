/** The events a painter sends, the squashing pending list, and its flush into the limited
    space of the client's event queue. */
module Events {
  import opened Wrappers

  datatype CursorShape = CursorShape(enabled: bool, hotX: int, hotY: int, width: nat, height: nat,
                                     handle: nat, length: nat, format: nat, stride: nat)

  datatype Event =
    | UpdateReady
    | Dpms(mode: int)
    | ModeChanged(hdisplay: nat, vdisplay: nat, vrefresh: nat, bitsPerPixel: nat, format: nat)
    | CursorSet(shape: CursorShape)
    | CursorMove(x: int, y: int)
    | DdcciData(data: seq<int>, flags: int, address: int)

  /** Size of the event in the client's queue, in bytes. */
  function Length(e: Event): nat {
    match e
    case UpdateReady => 8
    case Dpms(_) => 12
    case ModeChanged(_, _, _, _, _) => 28
    case CursorSet(_) => 44
    case CursorMove(_, _) => 16
    case DdcciData(_, _, _) => 80
  }

  /** The bytes of the event's fields after its header, padding included. */
  function FieldBytes(e: Event): seq<nat> {
    match e
    case UpdateReady => []
    case Dpms(_) => [4]
    case ModeChanged(_, _, _, _, _) => [4, 4, 4, 4, 4]
    case CursorSet(_) => [4, 4, 4, 4, 1 + 3, 4, 4, 4, 4]
    case CursorMove(_, _) => [4, 4]
    case DdcciData(_, _, _) => [64, 4, 2, 2]
  }

  function SumOf(ns: seq<nat>): nat {
    if ns == [] then 0 else ns[0] + SumOf(ns[1..])
  }

  /** An event is its header of eight bytes and its fields. */
  lemma LengthIsLayout(e: Event)
    ensures Length(e) == 8 + SumOf(FieldBytes(e))
  {
    if e.DdcciData? {
      assert [64, 4, 2, 2][1..] == [4, 2, 2] && [4, 2, 2][1..] == [2, 2] && [2, 2][1..] == [2];
      assert SumOf([2, 2]) == 4 && SumOf([4, 2, 2]) == 8;
    } else {
      SumOfFours(FieldBytes(e));
    }
  }

  lemma {:induction false} SumOfFours(ns: seq<nat>)
    requires forall i :: 0 <= i < |ns| ==> ns[i] == 4
    ensures SumOf(ns) == 4 * |ns|
  {
    if ns != [] {
      SumOfFours(ns[1..]);
    }
  }

  function TotalLength(es: seq<Event>): nat {
    if es == [] then 0 else Length(es[0]) + TotalLength(es[1..])
  }

  predicate Squashable(e: Event) {
    e.CursorSet? || e.CursorMove?
  }

  predicate SameType(a: Event, b: Event) {
    || (a.UpdateReady? && b.UpdateReady?) || (a.Dpms? && b.Dpms?)
    || (a.ModeChanged? && b.ModeChanged?) || (a.CursorSet? && b.CursorSet?)
    || (a.CursorMove? && b.CursorMove?) || (a.DdcciData? && b.DdcciData?)
  }

  function Enqueued(pending: seq<Event>, e: Event): seq<Event> {
    if pending != [] && SameType(e, pending[|pending| - 1]) && Squashable(e)
    then pending[..|pending| - 1] + [e]
    else pending + [e]
  }

  /** How many pending events a flush hands over when the client has `space` bytes left. */
  function FlushCount(pending: seq<Event>, space: nat): (n: nat)
    ensures n <= |pending|
    ensures TotalLength(pending[..n]) <= space
  {
    if pending == [] || Length(pending[0]) > space then 0
    else
      var n := FlushCount(pending[1..], space - Length(pending[0]));
      assert pending[..n + 1][1..] == pending[1..][..n];
      n + 1
  }

  /** A flush sends exactly the longest prefix that fits. */
  lemma {:induction false} FlushTakesLongestPrefix(pending: seq<Event>, space: nat, m: nat)
    requires m <= |pending|
    ensures TotalLength(pending[..m]) <= space <==> m <= FlushCount(pending, space)
  {
    if m > 0 {
      assert pending[..m][1..] == pending[1..][..m - 1];
      if Length(pending[0]) <= space {
        FlushTakesLongestPrefix(pending[1..], space - Length(pending[0]), m - 1);
      }
    }
  }

  // ---- The queue: the pending list, its retry work, and the client's side ----

  datatype Queue = Queue(
    pending: seq<Event>,
    scheduled: bool,
    space: nat,               // bytes left in the client's queue
    delivered: seq<Event>,    // handed to the client since it connected
    accepted: seq<Event>)     // history: taken on since it connected

  const EMPTY_QUEUE := Queue([], false, 0, [], [])

  function Accept(q: Queue, e: Event): Queue {
    q.(pending := Enqueued(q.pending, e), accepted := q.accepted + [e])
  }

  /** Hands over all that fits; what is left is retried by the delayed work. */
  function Flush(q: Queue): Queue {
    var n := FlushCount(q.pending, q.space);
    q.(delivered := q.delivered + q.pending[..n],
       pending := q.pending[n..],
       space := q.space - TotalLength(q.pending[..n]),
       scheduled := n < |q.pending|)
  }

  /** While the retry work is scheduled a new event only joins the list. */
  function Send(q: Queue, e: Event): Queue {
    var a := Accept(q, e);
    if a.scheduled then a else Flush(a)
  }

  /** What a flush does, whatever it is made of: pending events move to the client in order, the space they
      take is accounted for, and it ends only when none is left or the next one does not fit. */
  lemma FlushDelivers(q: Queue)
    ensures var r := Flush(q);
      && r.delivered + r.pending == q.delivered + q.pending && q.delivered <= r.delivered
      && TotalLength(r.delivered) + r.space == TotalLength(q.delivered) + q.space
      && (r.pending == [] || Length(r.pending[0]) > r.space)
      && (r.scheduled <==> r.pending != []) && r.accepted == q.accepted
  {
    hide FlushCount, TotalLength;
    var n := FlushCount(q.pending, q.space);
    FlushStops(q.pending, q.space);
    TotalLengthSum(q.delivered, q.pending[..n]);
    assert q.pending[..n] + q.pending[n..] == q.pending;
    assert q.delivered + q.pending[..n] + q.pending[n..] == q.delivered + (q.pending[..n] + q.pending[n..]);
  }

  lemma FlushCountStep(pending: seq<Event>, space: nat)
    ensures FlushCount(pending, space) ==
      if pending == [] || Length(pending[0]) > space then 0
      else 1 + FlushCount(pending[1..], space - Length(pending[0]))
  {
  }

  lemma FlushStops(pending: seq<Event>, space: nat)
    ensures var n := FlushCount(pending, space);
      n == |pending| || Length(pending[n]) > space - TotalLength(pending[..n])
  {
    var n := FlushCount(pending, space);
    if n < |pending| {
      FlushTakesLongestPrefix(pending, space, n + 1);
      PrefixGrows(pending, n);
    }
  }

  lemma {:induction false} TotalLengthSum(a: seq<Event>, b: seq<Event>)
    ensures TotalLength(a + b) == TotalLength(a) + TotalLength(b)
  {
    if a == [] {
      assert a + b == b;
    } else {
      assert (a + b)[1..] == a[1..] + b;
      TotalLengthSum(a[1..], b);
    }
  }

  /** An event with room, and nothing before it, is delivered at once; while the retry is scheduled it waits. */
  lemma SendDelivers(q: Queue, e: Event)
    ensures var r := Send(q, e);
      && r.accepted == q.accepted + [e]
      && (q.pending == [] && !q.scheduled && Length(e) <= q.space ==>
            r.delivered == q.delivered + [e] && r.pending == [])
      && (q.scheduled ==> r.delivered == q.delivered && r.scheduled)
      && (!q.scheduled ==> r.pending == [] || Length(r.pending[0]) > r.space)
  {
    FlushDelivers(Accept(q, e));
    if q.pending == [] && !q.scheduled && Length(e) <= q.space {
      NonePrefix([e]);
      FlushTakesLongestPrefix([e], q.space, 1);
      assert [e][..1] == [e] && TotalLength([e]) == Length(e);
    }
  }

  lemma FlushDeliversHead(q: Queue)
    requires q.pending != [] && Length(q.pending[0]) <= q.space
    ensures q.delivered + [q.pending[0]] <= Flush(q).delivered
  {
    FlushDelivers(q);
    NonePrefix(q.pending);
    FlushTakesLongestPrefix(q.pending, q.space, 1);
    PrefixGrows(q.pending, 0);
  }

  /** With room for all of them, all pending events are delivered. */
  lemma FlushDrains(q: Queue)
    requires TotalLength(q.pending) <= q.space
    ensures Flush(q).pending == [] && Flush(q).delivered == q.delivered + q.pending
  {
    FlushTakesLongestPrefix(q.pending, q.space, |q.pending|);
    assert q.pending[..|q.pending|] == q.pending;
  }

  lemma {:induction false} TotalLengthSplit(es: seq<Event>, e: Event)
    ensures TotalLength(es + [e]) == TotalLength(es) + Length(e)
  {
    if es != [] {
      TotalLengthSplit(es[1..], e);
      assert (es + [e])[1..] == es[1..] + [e];
    }
  }

  lemma NonePrefix(es: seq<Event>)
    ensures es[..0] == [] && es[0..] == es && TotalLength(es[..0]) == 0
  {
  }

  lemma PrefixGrows(es: seq<Event>, n: nat)
    requires n < |es|
    ensures TotalLength(es[..n + 1]) == TotalLength(es[..n]) + Length(es[n])
    ensures es[..n + 1] == es[..n] + [es[n]] && es[n..][1..] == es[n + 1..]
  {
    assert es[..n + 1] == es[..n] + [es[n]];
    TotalLengthSplit(es[..n], es[n]);
  }

  // ---- What a client learns from a stream of events ----

  datatype Seen = Seen(event: Event, shape: Option<CursorShape>, position: Option<(int, int)>)

  /** The latest cursor shape and position, and for every other event received, in order, the
      event with the cursor as it stood then. */
  datatype View = View(shape: Option<CursorShape>, position: Option<(int, int)>, log: seq<Seen>)

  function Observe(v: View, e: Event): View {
    match e
    case CursorSet(s) => v.(shape := Some(s))
    case CursorMove(x, y) => v.(position := Some((x, y)))
    case _ => v.(log := v.log + [Seen(e, v.shape, v.position)])
  }

  function Replay(es: seq<Event>): View {
    if es == [] then View(None, None, [])
    else Observe(Replay(es[..|es| - 1]), es[|es| - 1])
  }

  predicate NoTwins(es: seq<Event>) {
    forall i :: 0 <= i < |es| - 1 ==> !(SameType(es[i], es[i + 1]) && Squashable(es[i]))
  }

  lemma ReplayAppend(es: seq<Event>, e: Event)
    ensures Replay(es + [e]) == Observe(Replay(es), e)
  {
  }

  lemma SquashingReplays(stem: seq<Event>, last: Event, e: Event)
    requires SameType(e, last) && Squashable(e)
    ensures Replay(stem + [e]) == Observe(Replay(stem + [last]), e)
  {
    ReplayAppend(stem, last);
    ReplayAppend(stem, e);
  }

  /** Enqueueing appends to the stream, or replaces its last event. */
  lemma EnqueueChangesEnd(delivered: seq<Event>, pending: seq<Event>, e: Event)
    ensures var n := |pending| - 1;
      if n >= 0 && SameType(e, pending[n]) && Squashable(e)
      then var stem := delivered + pending[..n];
        delivered + pending == stem + [pending[n]] && delivered + Enqueued(pending, e) == stem + [e]
      else delivered + Enqueued(pending, e) == delivered + pending + [e]
  {
  }

  /** A cursor shape replaces a pending one, and a cursor move a pending one, at the end of the list; every other
      event joins it. */
  lemma EnqueueSquashesIff(pending: seq<Event>, e: Event)
    ensures var n := |pending| - 1;
      var twins := n >= 0 && ((e.CursorSet? && pending[n].CursorSet?) || (e.CursorMove? && pending[n].CursorMove?));
      Enqueued(pending, e) == (if twins then pending[..n] else pending) + [e]
  {
  }

  /** Squashing keeps the meaning: if what was delivered and is pending replays like everything
      accepted, it still does after one more event. */
  lemma EnqueuePreservesMeaning(accepted: seq<Event>, delivered: seq<Event>, pending: seq<Event>, e: Event)
    requires Replay(accepted) == Replay(delivered + pending)
    ensures Replay(accepted + [e]) == Replay(delivered + Enqueued(pending, e))
  {
    ReplayAppend(accepted, e);
    EnqueueChangesEnd(delivered, pending, e);
    var n := |pending| - 1;
    if n >= 0 && SameType(e, pending[n]) && Squashable(e) {
      SquashingReplays(delivered + pending[..n], pending[n], e);
    } else {
      ReplayAppend(delivered + pending, e);
    }
  }

  /** No two neighbours in the pending list could still be squashed. */
  lemma EnqueueKeepsNoTwins(pending: seq<Event>, e: Event)
    requires NoTwins(pending)
    ensures NoTwins(Enqueued(pending, e))
  {
  }

  // ---- What the replayed view says about the stream itself ----

  function NonCursor(es: seq<Event>): seq<Event> {
    if es == [] then []
    else NonCursor(es[..|es| - 1]) + if Squashable(es[|es| - 1]) then [] else [es[|es| - 1]]
  }

  function Logged(log: seq<Seen>): seq<Event> {
    if log == [] then [] else Logged(log[..|log| - 1]) + [log[|log| - 1].event]
  }

  /** A client's log holds exactly the events that are not cursor events, in their order. */
  lemma {:induction false} LogIsNonCursor(es: seq<Event>)
    ensures Logged(Replay(es).log) == NonCursor(es)
  {
    if es != [] {
      var stem, e := es[..|es| - 1], es[|es| - 1];
      LogIsNonCursor(stem);
      var v := Replay(stem);
      if !Squashable(e) {
        var seen := Seen(e, v.shape, v.position);
        assert Replay(es).log == v.log + [seen];
        assert (v.log + [seen])[..|v.log|] == v.log;
      }
    }
  }

  /** Streams that replay alike carry the same other events in the same order. */
  lemma SameReplaySameEvents(a: seq<Event>, b: seq<Event>)
    requires Replay(a) == Replay(b)
    ensures NonCursor(a) == NonCursor(b)
  {
    LogIsNonCursor(a);
    LogIsNonCursor(b);
  }
}
